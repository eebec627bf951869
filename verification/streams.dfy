/** The protobuf run time's coded streams, as far as the generated code calls them. */
module Streams {
  import opened Bytes
  import opened Wire

  /** `CodedInputStream`, limited to one message: `rest` is what has not been read. A failed read ends the parse. */
  class CodedInputStream {
    var rest: seq<byte>

    constructor (data: seq<byte>)
      ensures rest == data
    {
      rest := data;
    }

    method Eof() returns (b: bool)
      ensures b <==> rest == []
    {
      b := rest == [];
    }

    method ReadTagUnpack() returns (r: Option<Tag>)
      modifies this
      ensures match ReadTag(old(rest)) case None => r == None case Some(p) => r == Some(p.value) && rest == p.rest
    {
      var p := ReadTag(rest);
      if p.None? { return None; }
      rest := p.value.rest;
      r := Some(p.value.value);
    }

    method ReadRawVarint64() returns (r: Option<u64>)
      modifies this
      ensures match ReadVarint64(old(rest)) case None => r == None case Some(p) => r == Some(p.value) && rest == p.rest
    {
      var p := ReadVarint64(rest);
      if p.None? { return None; }
      rest := p.value.rest;
      r := Some(p.value.value);
    }

    method ReadFloat() returns (r: Option<f32>)
      modifies this
      ensures match Take(old(rest), 4)
              case None => r == None
              case Some(p) => r == Some(FromLittleEndian(p.value)) && rest == p.rest
    {
      var p := Take(rest, 4);
      if p.None? { return None; }
      rest := p.value.rest;
      r := Some(FromLittleEndian(p.value.value));
    }

    method ReadBytes() returns (r: Option<seq<byte>>)
      modifies this
      ensures match ReadDelimited(old(rest)) case None => r == None case Some(p) => r == Some(p.value) && rest == p.rest
    {
      var p := ReadDelimited(rest);
      if p.None? { return None; }
      rest := p.value.rest;
      r := Some(p.value.value);
    }

    /** `read_unknown_or_skip_group`: the record is passed over. */
    method SkipUnknown(tag: Tag) returns (ok: bool)
      modifies this
      ensures match ReadPayload(tag, old(rest)) case None => !ok case Some(p) => ok && rest == p.rest
    {
      var p := ReadPayload(tag, rest);
      if p.None? { return false; }
      rest := p.value.rest;
      ok := true;
    }
  }

  /** `CodedOutputStream`: `written` is everything written so far. */
  class CodedOutputStream {
    var written: seq<byte>

    constructor ()
      ensures written == []
    {
      written := [];
    }

    method WriteTag(num: nat, w: WireType)
      modifies this
      ensures written == old(written) + EncodeTag(num, w)
    {
      written := written + EncodeTag(num, w);
    }

    method WriteRawVarint(v: nat)
      modifies this
      ensures written == old(written) + EncodeVarint(v)
    {
      written := written + EncodeVarint(v);
    }

    method WriteRecord(r: Record)
      requires Emitted(r)
      modifies this
      ensures written == old(written) + EncodeRecord(r)
    {
      written := written + EncodeRecord(r);
    }
  }
}
