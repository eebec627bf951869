/** `stringutils::Trim` and `Split`, and the `.ini` files written and read with them. Strings are bytes. */
module Ini {
  import opened Bytes

  type Str = seq<byte>

  const LF: byte := 10
  const EQUALS: byte := 61

  /** " \n\r\t\f\v" */
  const WHITESPACE: Str := [32, 10, 13, 9, 12, 11]

  // ------------------------------------------------------------ string_utils

  function FindFirstNotOf(s: Str, d: Str, from: nat): (r: Option<nat>)
    ensures r.Some? ==> from <= r.value < |s| && s[r.value] !in d && forall i :: from <= i < r.value ==> s[i] in d
    ensures r.None? ==> forall i :: from <= i < |s| ==> s[i] in d
    decreases |s| - from
  {
    if from >= |s| then None
    else if s[from] !in d then Some(from)
    else FindFirstNotOf(s, d, from + 1)
  }

  function FindLastNotOf(s: Str, d: Str): (r: Option<nat>)
    ensures r.Some? ==> r.value < |s| && s[r.value] !in d && forall i :: r.value < i < |s| ==> s[i] in d
    ensures r.None? ==> forall i :: 0 <= i < |s| ==> s[i] in d
  {
    if s == [] then None
    else if s[|s| - 1] !in d then Some(|s| - 1)
    else
      var r := FindLastNotOf(s[..|s| - 1], d);
      assert forall i :: 0 <= i < |s| - 1 ==> s[..|s| - 1][i] == s[i];
      r
  }

  /** `find`: the whole of `d`, as a substring. */
  function Find(s: Str, d: Str, from: nat): (r: Option<nat>)
    ensures r.Some? ==> from <= r.value && OccursAt(s, d, r.value) && forall i :: from <= i < r.value ==> !OccursAt(s, d, i)
    ensures r.None? ==> forall i :: from <= i ==> !OccursAt(s, d, i)
    decreases |s| - from
  {
    if from > |s| then None
    else if OccursAt(s, d, from) then Some(from)
    else Find(s, d, from + 1)
  }

  function LTrim(s: Str): Str {
    match FindFirstNotOf(s, WHITESPACE, 0)
    case None => []
    case Some(start) => s[start..]
  }

  function RTrim(s: Str): Str {
    match FindLastNotOf(s, WHITESPACE)
    case None => []
    case Some(end) => s[..end + 1]
  }

  /** No white space at either end. */
  predicate Trimmed(s: Str) { s == [] || (s[0] !in WHITESPACE && s[|s| - 1] !in WHITESPACE) }

  /** `r` is `s` without the first `a` bytes and without those from `b` on, all white space. */
  predicate Stripped(s: Str, r: Str, a: nat, b: nat) {
    && a <= b <= |s| && r == s[a..b]
    && (forall i :: 0 <= i < |s| && (i < a || b <= i) ==> s[i] in WHITESPACE)
  }

  function Trim(s: Str): (r: Str)
    ensures Trimmed(r)
    ensures exists a, b :: Stripped(s, r, a, b)
  {
    var l := LTrim(s);
    var r := RTrim(l);
    assert exists a, b :: Stripped(s, r, a, b) by {
      if l == [] {
        assert Stripped(s, r, 0, 0);
      } else {
        var a: nat := |s| - |l|;
        assert Stripped(s, r, a, a + |r|);
      }
    }
    r
  }

  /** Trimming is what it says: trimmed text, and no other, is left alone. */
  lemma TrimLeavesAlone(s: Str)
    ensures Trim(s) == s <==> Trimmed(s)
  {
  }

  /** A piece of `s`, from `start` up to `end`. */
  datatype Piece = Piece(start: nat, end: nat)

  /** The pieces that the loop of `Split` cuts from position `from` on. */
  function Pieces(s: Str, d: Str, from: nat): (r: seq<Piece>)
    requires d != []
    ensures forall p :: p in r ==> from <= p.start < p.end <= |s|
    decreases |s| - from
  {
    match FindFirstNotOf(s, d, from)
    case None => []
    case Some(start) =>
      match Find(s, d, start)
      case None => [Piece(start, |s|)]
      case Some(end) =>
        assert end != start by { assert OccursAt(s, d, end) && s[end..end + |d|][0] == d[0]; }
        [Piece(start, end)] + Pieces(s, d, end)
  }

  function Cut(s: Str, ps: seq<Piece>): (r: seq<Str>)
    requires forall p :: p in ps ==> p.start <= p.end <= |s|
    ensures |r| == |ps|
  {
    seq(|ps|, k requires 0 <= k < |ps| => assert ps[k] in ps; s[ps[k].start..ps[k].end])
  }

  function Split(s: Str, d: Str): seq<Str>
    requires d != []
  {
    Cut(s, Pieces(s, d, 0))
  }

  lemma PiecesStep(s: Str, d: Str, from: nat)
    requires d != [] && FindFirstNotOf(s, d, from).Some?
    ensures var start := FindFirstNotOf(s, d, from).value;
            var next := Find(s, d, start);
            var end := if next.None? then |s| else next.value;
            Pieces(s, d, from) == [Piece(start, end)] + Pieces(s, d, end)
  {
  }

  /** The pieces before `end` have been cut into `result`. */
  ghost predicate CutUpTo(s: Str, d: Str, end: nat, done: seq<Piece>, result: seq<Str>)
    requires d != []
  {
    && end <= |s|
    && (forall p :: p in done ==> p.start <= p.end <= |s|)
    && result == Cut(s, done)
    && Pieces(s, d, 0) == done + Pieces(s, d, end)
  }

  lemma CutSnoc(s: Str, ps: seq<Piece>, p: Piece)
    requires (forall q :: q in ps ==> q.start <= q.end <= |s|) && p.start <= p.end <= |s|
    ensures Cut(s, ps + [p]) == Cut(s, ps) + [s[p.start..p.end]]
  {
  }

  lemma CutNext(s: Str, d: Str, end: nat, done: seq<Piece>, result: seq<Str>, start: nat, to: nat)
    requires d != [] && CutUpTo(s, d, end, done, result) && FindFirstNotOf(s, d, end) == Some(start)
    requires to == (match Find(s, d, start) case None => |s| case Some(i) => i)
    ensures end <= start < to <= |s|
    ensures CutUpTo(s, d, to, done + [Piece(start, to)], result + [s[start..to]])
  {
    PiecesStep(s, d, end);
    hide Pieces, FindFirstNotOf, Find, OccursAt, Cut;
    var p := Piece(start, to);
    assert end <= start < to <= |s| by { assert p in [p] + Pieces(s, d, to); }
    assert result + [s[start..to]] == Cut(s, done + [p]) by { CutSnoc(s, done, p); }
    Regroup(done, p, Pieces(s, d, to));
  }

  lemma Regroup<T>(a: seq<T>, x: T, b: seq<T>)
    ensures a + ([x] + b) == (a + [x]) + b
  {
  }

  /** `Split`: `start` and `end` move over the string; a `find` without result stands for `npos`. */
  method SplitString(s: Str, d: Str) returns (result: seq<Str>)
    requires d != []
    ensures result == Split(s, d)
  {
    result := [];
    ghost var done: seq<Piece> := [];
    var end: nat := 0;
    var start := FindFirstNotOf(s, d, end);
    while start.Some?
      invariant start == FindFirstNotOf(s, d, end)
      invariant CutUpTo(s, d, end, done, result)
      decreases |s| - end
    {
      hide FindFirstNotOf, Find, CutUpTo;
      var next := Find(s, d, start.value);
      var to := if next.None? then |s| else next.value;
      CutNext(s, d, end, done, result, start.value, to);
      done := done + [Piece(start.value, to)];
      result := result + [s[start.value..to]];
      end := to;
      start := FindFirstNotOf(s, d, end);
    }
    assert done + [] == done;
  }

  /** With an empty delimiter the loop never moves on, so `Split` is for non-empty ones. */
  lemma EmptyDelimiterStands(s: Str, at: nat)
    requires at < |s|
    ensures FindFirstNotOf(s, [], at) == Some(at) && Find(s, [], at) == Some(at)
  {
  }

  /** A longest stretch of `s` without the byte `c`. */
  predicate MaximalRun(s: Str, c: byte, p: Piece) {
    && p.start < p.end <= |s|
    && (forall i :: p.start <= i < p.end ==> s[i] != c)
    && (p.start == 0 || s[p.start - 1] == c)
    && (p.end == |s| || s[p.end] == c)
  }

  lemma FindByte(s: Str, c: byte, from: nat)
    requires from <= |s|
    ensures var r := Find(s, [c], from);
            && (r.Some? ==> r.value < |s| && s[r.value] == c && forall i :: from <= i < r.value ==> s[i] != c)
            && (r.None? ==> forall i :: from <= i < |s| ==> s[i] != c)
  {
    assert forall i :: 0 <= i < |s| ==> (OccursAt(s, [c], i) <==> s[i] == c) by {
      forall i | 0 <= i < |s| ensures OccursAt(s, [c], i) <==> s[i] == c { assert s[i..i + 1] == [s[i]]; }
    }
  }

  /** From `from` on, `r` holds exactly the maximal runs, in order. */
  ghost predicate AreRuns(s: Str, c: byte, from: nat, r: seq<Piece>) {
    && (forall p :: p in r ==> from <= p.start && MaximalRun(s, c, p))
    && (forall j, k :: 0 <= j < k < |r| ==> r[j].end < r[k].start)
    && (forall i :: from <= i < |s| && s[i] != c ==> exists p :: p in r && p.start <= i < p.end)
  }

  lemma FirstRun(s: Str, c: byte, from: nat, p: Piece, tail: seq<Piece>)
    requires from <= p.start && MaximalRun(s, c, p) && AreRuns(s, c, p.end, tail)
    requires forall i :: from <= i < p.start ==> s[i] == c
    ensures AreRuns(s, c, from, [p] + tail)
  {
  }

  /** For a delimiter of one byte, the pieces are exactly the maximal runs, in order. */
  lemma {:induction false} PiecesAreRuns(s: Str, c: byte, from: nat)
    requires from <= |s| && (from == 0 || from == |s| || s[from] == c)
    ensures AreRuns(s, c, from, Pieces(s, [c], from))
    decreases |s| - from
  {
    hide AreRuns;
    var start := FindFirstNotOf(s, [c], from);
    if start.None? {
      NoRuns(s, c, from);
    } else {
      FindByte(s, c, start.value);
      var end := Find(s, [c], start.value);
      var p := Piece(start.value, if end.Some? then end.value else |s|);
      assert forall i :: from <= i < start.value ==> s[i] in [c];
      assert p.start > from ==> s[p.start - 1] in [c];
      if end.Some? {
        PiecesAreRuns(s, c, end.value);
        FirstRun(s, c, from, p, Pieces(s, [c], end.value));
      } else {
        NoRuns(s, c, |s|);
        FirstRun(s, c, from, p, []);
        assert [p] + [] == [p];
      }
    }
  }

  lemma NoRuns(s: Str, c: byte, from: nat)
    requires FindFirstNotOf(s, [c], from).None?
    ensures AreRuns(s, c, from, [])
  {
  }

  // ------------------------------------------------------------ ini_file

  type Data = map<Str, Str>

  /** `getline`: up to the first line feed, which is dropped. */
  function NextLine(s: Str): Str {
    match Find(s, [LF], 0) case None => s case Some(i) => s[..i]
  }

  function AfterLine(s: Str): (r: Str)
    requires s != []
    ensures |r| < |s|
  {
    match Find(s, [LF], 0) case None => [] case Some(i) => assert OccursAt(s, [LF], i); s[i + 1..]
  }

  /** One line: two pieces make an entry, and `emplace` keeps an entry that is there. */
  function ReadEntry(line: Str, data: Data): Data {
    var argv := Split(line, [EQUALS]);
    if |argv| != 2 || Trim(argv[0]) in data then data else data[Trim(argv[0]) := Trim(argv[1])]
  }

  function ReadAll(s: Str, data: Data): Data
    decreases |s|
  {
    if s == [] then data else ReadAll(AfterLine(s), ReadEntry(NextLine(s), data))
  }

  function EntryLine(key: Str, value: Str): Str { key + [EQUALS] + value }

  function WriteAll(data: Data, order: seq<Str>): Str
    requires forall k :: k in order ==> k in data
  {
    if order == [] then [] else EntryLine(order[0], data[order[0]]) + [LF] + WriteAll(data, order[1..])
  }

  lemma WriteAllStep(data: Data, order: seq<Str>, k: nat)
    requires k <= |order| && forall x :: x in order ==> x in data
    ensures WriteAll(data, order[k..])
            == if k == |order| then [] else (EntryLine(order[k], data[order[k]]) + [LF]) + WriteAll(data, order[k + 1..])
  {
  }

  /** An order in which an unordered map may be walked. */
  ghost predicate Enumerates(order: seq<Str>, data: Data) {
    && (forall k :: k in order <==> k in data)
    && (forall i, j :: 0 <= i < j < |order| ==> order[i] != order[j])
  }

  /** `file` is the content of the backing file, or none if it cannot be opened. */
  class IniFile {
    var data: Data
    const filepath: Str

    constructor (filepath: Str)
      ensures data == map[] && this.filepath == filepath
    {
      data := map[];
      this.filepath := filepath;
    }

    /** What was in memory is gone even when nothing is read. */
    method Read(file: Option<Str>) returns (ok: bool)
      modifies this
      ensures ok <==> filepath != [] && file.Some?
      ensures data == if ok then ReadAll(file.value, map[]) else map[]
    {
      data := map[];
      if filepath == [] || file.None? { return false; }
      var rest := file.value;
      while rest != []
        invariant ReadAll(rest, data) == ReadAll(file.value, map[])
        decreases |rest|
      {
        var line := NextLine(rest);
        ghost var before := data;
        rest := AfterLine(rest);
        var argv := SplitString(line, [EQUALS]);
        if |argv| == 2 {
          var key, val := Trim(argv[0]), Trim(argv[1]);
          if key !in data { data := data[key := val]; }
        }
        assert data == ReadEntry(line, before);
      }
      ok := true;
    }

    method Write(canOpen: bool, order: seq<Str>) returns (file: Option<Str>)
      requires Enumerates(order, data)
      ensures file == if filepath != [] && canOpen then Some(WriteAll(data, order)) else None
    {
      hide EntryLine, WriteAll;
      if filepath == [] || !canOpen { return None; }
      var out: Str := [];
      assert order[0..] == order;
      for k := 0 to |order|
        invariant WriteAll(data, order) == out + WriteAll(data, order[k..])
      {
        var line := EntryLine(order[k], data[order[k]]) + [LF];
        WriteAllStep(data, order, k);
        out := out + line;
      }
      WriteAllStep(data, order, |order|);
      assert out + [] == out;
      file := Some(out);
    }

    method HasKey(key: Str) returns (b: bool)
      ensures b <==> key in data
    {
      b := key in data;
    }

    method Get(key: Str) returns (r: Option<Str>)
      ensures r == if key in data then Some(data[key]) else None
    {
      if key in data { r := Some(data[key]); } else { r := None; }
    }

    method Set(key: Str, value: Str)
      modifies this
      ensures data == old(data)[key := value]
    {
      data := data[key := value];
    }
  }

  // ------------------------------------------------------------ what a file keeps

  /** Text that can come out of a line of the file. */
  predicate Clean(t: Str) { Trimmed(t) && EQUALS !in t && LF !in t }

  predicate CleanData(data: Data) { forall k :: k in data ==> Clean(k) && Clean(data[k]) }

  lemma TrimmedPieceIsClean(line: Str, p: Piece)
    requires LF !in line && MaximalRun(line, EQUALS, p)
    ensures Clean(Trim(line[p.start..p.end]))
  {
    hide Trim;
    var piece := line[p.start..p.end];
    assert forall k :: 0 <= k < |piece| ==> piece[k] == line[p.start + k];
    var a, b :| Stripped(piece, Trim(piece), a, b);
  }

  lemma NextLineHasNoLf(s: Str)
    ensures LF !in NextLine(s)
  {
    FindByte(s, LF, 0);
  }

  lemma ReadEntryIsClean(line: Str, data: Data)
    requires CleanData(data) && LF !in line
    ensures CleanData(ReadEntry(line, data))
  {
    hide Trim, Clean, FindFirstNotOf, Find;
    PiecesAreRuns(line, EQUALS, 0);
    var ps := Pieces(line, [EQUALS], 0);
    if |ps| == 2 {
      assert ps[0] in ps && ps[1] in ps;
      TrimmedPieceIsClean(line, ps[0]);
      TrimmedPieceIsClean(line, ps[1]);
    }
  }

  /** Whatever the file holds, only clean keys and values are read from it. */
  lemma {:induction false} ReadIsClean(s: Str, data: Data)
    requires CleanData(data)
    ensures CleanData(ReadAll(s, data))
    decreases |s|
  {
    hide NextLine, AfterLine, ReadEntry, CleanData;
    if s != [] {
      NextLineHasNoLf(s);
      ReadEntryIsClean(NextLine(s), data);
      ReadIsClean(AfterLine(s), ReadEntry(NextLine(s), data));
    }
  }

  lemma LineRead(line: Str, rest: Str)
    requires LF !in line
    ensures var s := line + [LF] + rest; NextLine(s) == line && AfterLine(s) == rest
  {
    var s := line + [LF] + rest;
    assert forall k :: 0 <= k < |line| ==> s[k] == line[k];
    FindByte(s, LF, 0);
    assert s[|line|] == LF;
    assert s[..|line|] == line && s[|line| + 1..] == rest;
  }

  /** The pieces of `key=value` from the `=` on. */
  lemma {:induction false} PiecesOfValue(key: Str, value: Str)
    requires EQUALS !in value
    ensures Pieces(EntryLine(key, value), [EQUALS], |key|)
            == if value == [] then [] else [Piece(|key| + 1, |key| + 1 + |value|)]
  {
    var s, n := EntryLine(key, value), |key|;
    assert s[n] == EQUALS && EQUALS in [EQUALS];
    assert forall k :: n < k < |s| ==> s[k] == value[k - n - 1];
    LastPiece(s, EQUALS, n);
  }

  /** The pieces from a delimiter on after which there is none. */
  lemma LastPiece(s: Str, c: byte, n: nat)
    requires n < |s| && s[n] == c && forall k :: n < k < |s| ==> s[k] != c
    ensures Pieces(s, [c], n) == if n + 1 == |s| then [] else [Piece(n + 1, |s|)]
  {
    var r := FindFirstNotOf(s, [c], n);
    assert FindFirstNotOf(s, [c], n) == FindFirstNotOf(s, [c], n + 1);
    if n + 1 < |s| {
      assert s[n + 1] !in [c];
      FindByte(s, c, n + 1);
    }
  }

  lemma PiecesOfEntry(key: Str, value: Str)
    requires EQUALS !in key
    ensures Pieces(EntryLine(key, value), [EQUALS], 0)
            == (if key == [] then [] else [Piece(0, |key|)]) + Pieces(EntryLine(key, value), [EQUALS], |key|)
  {
    var s, n := EntryLine(key, value), |key|;
    assert s[n] == EQUALS;
    assert forall k :: 0 <= k < n ==> s[k] == key[k];
    FindByte(s, EQUALS, 0);
    if key != [] { assert FindFirstNotOf(s, [EQUALS], 0) == Some(0); }
  }

  lemma SplitEntry(key: Str, value: Str)
    requires EQUALS !in key && EQUALS !in value
    ensures Split(EntryLine(key, value), [EQUALS])
            == (if key == [] then [] else [key]) + (if value == [] then [] else [value])
  {
    hide FindFirstNotOf, Find;
    PiecesOfValue(key, value);
    PiecesOfEntry(key, value);
    hide Pieces;
    var s, n := EntryLine(key, value), |key|;
    assert s[0..n] == key && s[n + 1..n + 1 + |value|] == value;
  }

  lemma EntryRead(key: Str, value: Str, data: Data)
    requires Clean(key) && Clean(value)
    ensures ReadEntry(EntryLine(key, value), data)
            == if key == [] || value == [] || key in data then data else data[key := value]
  {
    hide Trim, Split, EntryLine;
    SplitEntry(key, value);
    TrimLeavesAlone(key);
    TrimLeavesAlone(value);
  }

  /** The entries of these keys that survive: an empty key or value does not. */
  function Kept(data: Data, order: seq<Str>): Data {
    map k | k in data && k in order && k != [] && data[k] != [] :: data[k]
  }

  lemma {:induction false} ReadWritten(data: Data, order: seq<Str>, acc: Data)
    requires CleanData(data)
    requires forall k :: k in order ==> k in data && k !in acc
    requires forall i, j :: 0 <= i < j < |order| ==> order[i] != order[j]
    ensures ReadAll(WriteAll(data, order), acc) == acc + Kept(data, order)
    decreases |order|
  {
    hide NextLine, AfterLine, ReadEntry, Kept, EntryLine, Clean;
    if order == [] {
      KeptNone(data);
      assert acc + Kept(data, order) == acc;
    } else {
      var key, rest := order[0], WriteAll(data, order[1..]);
      var value := data[key];
      EntryLineHasNoLf(key, value);
      LineRead(EntryLine(key, value), rest);
      EntryRead(key, value, acc);
      var acc' := ReadEntry(EntryLine(key, value), acc);
      ReadWritten(data, order[1..], acc');
      KeptCons(data, order, acc);
    }
  }

  lemma KeptCons(data: Data, order: seq<Str>, acc: Data)
    requires order != [] && order[0] in data && order[0] !in order[1..] && order[0] !in acc
    ensures var key, value := order[0], data[order[0]];
            (if key == [] || value == [] then acc else acc[key := value]) + Kept(data, order[1..]) == acc + Kept(data, order)
  {
  }

  lemma KeptNone(data: Data)
    ensures Kept(data, []) == map[]
  {
  }

  lemma EntryLineHasNoLf(key: Str, value: Str)
    requires Clean(key) && Clean(value)
    ensures LF !in EntryLine(key, value)
  {
  }

  /** An entry that comes back: non-empty, trimmed, without `=` and line feed. */
  predicate Writable(t: Str) { t != [] && Clean(t) }

  /** `Read` after `Write` restores the map, in whatever order it is walked, if and only if all its keys and values are writable. */
  lemma RoundTrip(data: Data, order: seq<Str>)
    requires Enumerates(order, data)
    ensures ReadAll(WriteAll(data, order), map[]) == data <==> forall k :: k in data ==> Writable(k) && Writable(data[k])
  {
    hide Clean, ReadAll, WriteAll;
    ReadIsClean(WriteAll(data, order), map[]);
    if CleanData(data) {
      ReadWritten(data, order, map[]);
      assert map[] + Kept(data, order) == Kept(data, order);
      if Kept(data, order) == data {
        assert forall k :: k in data ==> k in Kept(data, order);
      } else {
        assert exists k :: k in data && k !in Kept(data, order);
      }
    }
  }

  // ------------------------------------------------------------ what reading depends on

  /** The separator, the line end and the white space of the file. */
  lemma IniLetters(b: byte)
    ensures EQUALS == '=' as int && LF == '\n' as int
    ensures b in WHITESPACE <==> b as char in {' ', '\n', '\r', '\t', 12 as char, 11 as char}
  {
  }

  /** The first of several entries with the same key stays. */
  lemma {:induction false} FirstEntryStays(s: Str, data: Data, key: Str)
    requires key in data
    ensures key in ReadAll(s, data) && ReadAll(s, data)[key] == data[key]
    decreases |s|
  {
    hide NextLine, AfterLine, Split, Trim;
    if s != [] { FirstEntryStays(AfterLine(s), ReadEntry(NextLine(s), data), key); }
  }

  lemma FirstOfTwoEntries(key: Str, first: Str, second: Str, rest: Str)
    requires Writable(key) && Writable(first) && Writable(second)
    ensures var data := ReadAll(EntryLine(key, first) + [LF] + (EntryLine(key, second) + [LF] + rest), map[]);
            key in data && data[key] == first
  {
    hide Clean, EntryLine, NextLine, AfterLine, ReadEntry;
    var tail := EntryLine(key, second) + [LF] + rest;
    EntryLineHasNoLf(key, first);
    LineRead(EntryLine(key, first), tail);
    EntryRead(key, first, map[]);
    FirstEntryStays(tail, map[key := first], key);
  }

  lemma OneLine(s: Str)
    requires s != [] && Find(s, [LF], 0) == None
    ensures NextLine(s) == s && AfterLine(s) == []
  {
  }

  /** A last line without its line feed is read like one with it. */
  lemma {:induction false} LastLineNeedsNoLf(s: Str, data: Data)
    requires s != [] && s[|s| - 1] != LF
    ensures ReadAll(s + [LF], data) == ReadAll(s, data)
    decreases |s|
  {
    hide ReadEntry, NextLine, AfterLine, Find;
    var t := s + [LF];
    FindByte(s, LF, 0);
    match Find(s, [LF], 0)
    case None =>
      assert t[|s|] == LF && forall k :: 0 <= k < |s| ==> t[k] == s[k];
      LineRead(s, []);
      assert t == s + [LF] + [];
      OneLine(s);
    case Some(i) =>
      var line, rest := s[..i], s[i + 1..];
      assert s == line + [LF] + rest && t == line + [LF] + (rest + [LF]);
      LineRead(line, rest);
      LineRead(line, rest + [LF]);
      LastLineNeedsNoLf(rest, ReadEntry(line, data));
  }

  lemma TwoRunsAreSeparated(s: Str, c: byte, ps: seq<Piece>)
    requires AreRuns(s, c, 0, ps)
    ensures |ps| > 1 ==> c in s
  {
    if |ps| > 1 { assert ps[0] in ps && ps[1] in ps && s[ps[0].end] in s; }
  }

  lemma RunAround(s: Str, c: byte, ps: seq<Piece>, i: nat) returns (x: nat)
    requires AreRuns(s, c, 0, ps) && i < |s| && s[i] != c
    ensures x < |ps| && ps[x].start <= i < ps[x].end && MaximalRun(s, c, ps[x])
  {
    var p :| p in ps && p.start <= i < p.end;
    x :| 0 <= x < |ps| && ps[x] == p;
  }

  lemma AtLeastThreeRuns(s: Str, c: byte, ps: seq<Piece>, i: nat, j: nat, k: nat, l: nat, m: nat)
    requires AreRuns(s, c, 0, ps) && i < j < k < l < m < |s|
    requires s[j] == s[l] == c && s[i] != c && s[k] != c && s[m] != c
    ensures |ps| > 2
  {
    var x := RunAround(s, c, ps, i);
    var y := RunAround(s, c, ps, k);
    var z := RunAround(s, c, ps, m);
    hide AreRuns;
    assert ps[x].end <= j && j < ps[y].start && ps[y].end <= l && l < ps[z].start;
  }

  /** A line without a separator is passed over. */
  lemma LineWithoutSeparator(line: Str, data: Data)
    requires EQUALS !in line
    ensures ReadEntry(line, data) == data
  {
    PiecesAreRuns(line, EQUALS, 0);
    TwoRunsAreSeparated(line, EQUALS, Pieces(line, [EQUALS], 0));
    hide Pieces, Trim, AreRuns;
  }

  /** And so is one with text in three places between separators. */
  lemma LineOfThreeParts(line: Str, data: Data, i: nat, j: nat, k: nat, l: nat, m: nat)
    requires i < j < k < l < m < |line| && line[j] == line[l] == EQUALS
    requires line[i] != EQUALS && line[k] != EQUALS && line[m] != EQUALS
    ensures ReadEntry(line, data) == data
  {
    PiecesAreRuns(line, EQUALS, 0);
    AtLeastThreeRuns(line, EQUALS, Pieces(line, [EQUALS], 0), i, j, k, l, m);
    hide Pieces, Trim, AreRuns;
  }
}
