/**
 HFile::readline: reads one line at a time, whatever the line ends are: LF, CR LF or CR alone.
 Reading a file to its end is proved to be: turn every line end into LF, then split.
 */
module LineReader {
  import opened Bytes

  const LF: byte := 10
  const CR: byte := 13

  // ---------- reference: normalise, then split ----------

  function Normalize(s: seq<byte>): seq<byte>
    decreases |s|
  {
    if s == [] then []
    else if s[0] == CR then [LF] + Normalize(if |s| > 1 && s[1] == LF then s[2..] else s[1..])
    else [s[0]] + Normalize(s[1..])
  }

  /** The bytes before the first LF. */
  function FirstLine(n: seq<byte>): (l: seq<byte>)
    ensures |l| <= |n| && l == n[..|l|] && LF !in l
    ensures |l| < |n| ==> n[|l|] == LF
  {
    if n == [] || n[0] == LF then [] else [n[0]] + FirstLine(n[1..])
  }

  /** The pieces between LFs; nothing after a final LF is not a line. */
  function Lines(n: seq<byte>): seq<seq<byte>>
    decreases |n|
  {
    if n == [] then []
    else
      var l := FirstLine(n);
      if |l| == |n| then [l] else [l] + Lines(n[|l| + 1..])
  }

  // ---------- one call ----------

  /** The line at the front of s, the number of bytes consumed, and whether a line end was seen. */
  function Scan(s: seq<byte>): (r: (seq<byte>, nat, bool))
    ensures r.1 <= |s| && (r.2 ==> r.1 > 0) && (!r.2 ==> r.1 == |s| == |r.0|)
  {
    if s == [] then ([], 0, false)
    else if s[0] == LF then ([], 1, true)
    else if s[0] == CR then ([], if |s| > 1 && s[1] == LF then 2 else 1, true)
    else
      var (l, k, end) := Scan(s[1..]);
      ([s[0]] + l, k + 1, end)
  }

  /** Scanning on after a byte that ends no line. */
  lemma PlainStep(b: byte, s: seq<byte>, str: seq<byte>)
    requires b != LF && b != CR
    ensures str + Scan([b] + s).0 == str + [b] + Scan(s).0
    ensures Scan([b] + s).1 == Scan(s).1 + 1 && Scan([b] + s).2 == Scan(s).2
  {
    assert ([b] + s)[1..] == s;
  }

  class HFile {
    const data: seq<byte>
    var pos: nat

    ghost predicate Valid()
      reads this
    {
      pos <= |data|
    }

    constructor (data: seq<byte>)
      ensures Valid() && this.data == data && pos == 0
    {
      this.data, pos := data, 0;
    }

    /** fread of one byte; `was` is returned at the end of the file. */
    method Fread(was: byte) returns (n: nat, ch: byte)
      requires Valid()
      modifies this
      ensures Valid()
      ensures n == 1 ==> old(pos) < |data| && ch == data[old(pos)] && pos == old(pos) + 1
      ensures n != 1 ==> n == 0 && old(pos) == |data| && ch == was && pos == old(pos)
    {
      if pos < |data| {
        n, ch := 1, data[pos];
        pos := pos + 1;
      } else {
        n, ch := 0, was;
      }
    }

    method Readline() returns (ok: bool, str: seq<byte>)
      requires Valid()
      modifies this
      ensures Valid()
      ensures var (l, k, end) := Scan(data[old(pos)..]);
              str == l && pos == old(pos) + k && ok == (end || l != [])
    {
      str := [];
      ghost var goal := Scan(data[pos..]);
      ghost var rest := data[pos..];  // from ch on
      var n, ch := Fread(0);
      while n != 0
        invariant Valid() && n <= 1 && |rest| == |data| - pos + n
        invariant n == 0 ==> rest == []
        invariant n == 1 ==> rest == [ch] + data[pos..]
        invariant goal.0 == str + Scan(rest).0 && old(pos) + goal.1 == pos - n + Scan(rest).1 && goal.2 == Scan(rest).2
        decreases |rest|
      {
        if ch == LF {
          return true, str;
        }
        if ch == CR {
          var m, next := Fread(ch);
          if m != 0 && next != LF {
            pos := pos - 1;  // fseek(fp, -1, SEEK_CUR)
          }
          return true, str;
        }
        PlainStep(ch, data[pos..], str);
        rest := data[pos..];
        str := str + [ch];
        n, ch := Fread(ch);
      }
      ok := |str| != 0;
    }

    /** readline again, when the lines before are already known. */
    method ReadNext(ghost before: seq<seq<byte>>) returns (ok: bool, str: seq<byte>)
      requires Valid()
      modifies this
      ensures Valid() && (ok ==> pos > old(pos))
      ensures before + TextLines(data[old(pos)..]) == if ok then before + [str] + TextLines(data[pos..]) else before
    {
      ghost var s := data[pos..];
      ScanIsFirstLine(s);
      ok, str := Readline();
      assert s[Scan(s).1..] == data[pos..];
    }

    /** The usual loop around readline. */
    method ReadAllLines() returns (lines: seq<seq<byte>>)
      requires Valid()
      modifies this
      ensures Valid() && lines == TextLines(data[old(pos)..])
    {
      lines := [];
      var ok, str := ReadNext(lines);
      while ok
        invariant Valid()
        invariant TextLines(data[old(pos)..]) == if ok then lines + [str] + TextLines(data[pos..]) else lines
        decreases ok, |data| - pos
      {
        lines := lines + [str];
        ok, str := ReadNext(lines);
      }
    }
  }

  // ---------- call after call ----------

  lemma {:induction false} ScanHasNoEnds(s: seq<byte>)
    ensures LF !in Scan(s).0 && CR !in Scan(s).0
  {
    if s != [] && s[0] != LF && s[0] != CR {
      ScanHasNoEnds(s[1..]);
    }
  }

  /** A byte that ends no line stays where it is. */
  lemma PlainByte(s: seq<byte>)
    requires s != [] && s[0] != LF && s[0] != CR
    ensures Scan(s) == ([s[0]] + Scan(s[1..]).0, Scan(s[1..]).1 + 1, Scan(s[1..]).2)
    ensures Normalize(s) == [s[0]] + Normalize(s[1..])
    ensures s[1..][Scan(s[1..]).1..] == s[Scan(s).1..]
  {
  }

  lemma Glue(b: byte, l: seq<byte>, n: seq<byte>)
    ensures [b] + (l + [LF] + n) == ([b] + l) + [LF] + n
  {
  }

  lemma {:induction false} ScanNormalizes(s: seq<byte>)
    ensures Normalize(s) == if Scan(s).2 then Scan(s).0 + [LF] + Normalize(s[Scan(s).1..]) else Scan(s).0
  {
    if s != [] && s[0] != LF && s[0] != CR {
      ScanNormalizes(s[1..]);
      PlainByte(s);
      Glue(s[0], Scan(s[1..]).0, Normalize(s[Scan(s).1..]));
    }
  }

  lemma {:induction false} FirstLineOf(l: seq<byte>, rest: seq<byte>)
    requires LF !in l && (rest == [] || rest[0] == LF)
    ensures FirstLine(l + rest) == l
  {
    if l == [] {
      assert l + rest == rest;
    } else {
      FirstLineOf(l[1..], rest);
      assert (l + rest)[1..] == l[1..] + rest;
    }
  }

  lemma LinesCons(l: seq<byte>, n: seq<byte>)
    requires LF !in l
    ensures Lines(l + [LF] + n) == [l] + Lines(n)
    ensures Lines(l) == if l == [] then [] else [l]
  {
    FirstLineOf(l, [LF] + n);
    assert l + [LF] + n == l + ([LF] + n);
    assert (l + [LF] + n)[|l| + 1..] == n;
    FirstLineOf(l, []);
    assert l + [] == l;
  }

  /** The lines of a file, and the reference for reading it to its end. */
  function TextLines(s: seq<byte>): seq<seq<byte>> {
    Lines(Normalize(s))
  }

  /** One readline takes exactly the first line off the file. */
  lemma ScanIsFirstLine(s: seq<byte>)
    ensures var (l, k, end) := Scan(s);
            TextLines(s) == if end || l != [] then [l] + TextLines(s[k..]) else []
  {
    ScanNormalizes(s);
    ScanHasNoEnds(s);
    var (l, k, end) := Scan(s);
    LinesCons(l, Normalize(s[k..]));
    if !end {
      assert s[k..] == [];
    }
  }

  function Unlines(lines: seq<seq<byte>>): seq<byte> {
    if lines == [] then [] else lines[0] + [LF] + Unlines(lines[1..])
  }

  lemma CutOut(n: seq<byte>, i: nat)
    requires i < |n|
    ensures n == n[..i] + [n[i]] + n[i + 1..]
  {
  }

  lemma ConsUnlines(l: seq<byte>, lines: seq<seq<byte>>)
    ensures Unlines([l] + lines) == l + [LF] + Unlines(lines)
  {
    assert ([l] + lines)[1..] == lines;
  }

  /** The first line and its LF come off the front of the text. */
  lemma LinesOnce(n: seq<byte>)
    requires |FirstLine(n)| < |n|
    ensures var l := FirstLine(n); var rest := n[|l| + 1..];
            n == l + [LF] + rest && Unlines(Lines(n)) == l + [LF] + Unlines(Lines(rest))
  {
    var l := FirstLine(n);
    CutOut(n, |l|);
    ConsUnlines(l, Lines(n[|l| + 1..]));
  }

  /** The text with a last LF, if it needs one. */
  function Terminated(n: seq<byte>): seq<byte> {
    if n == [] || n[|n| - 1] == LF then n else n + [LF]
  }

  lemma TerminatedBehind(l: seq<byte>, rest: seq<byte>)
    ensures Terminated(l + [LF] + rest) == l + [LF] + Terminated(rest)
  {
    if rest == [] {
      assert l + [LF] + rest == l + [LF];
    } else {
      assert (l + [LF] + rest)[|l| + |rest|] == rest[|rest| - 1];
      assert l + [LF] + rest + [LF] == l + [LF] + (rest + [LF]);
    }
  }

  /** Splitting loses nothing: the lines, each followed by LF, are the text, up to a missing last LF. */
  lemma {:induction false} LinesKeepEverything(n: seq<byte>)
    ensures Unlines(Lines(n)) == Terminated(n)
    decreases |n|
  {
    var l := FirstLine(n);
    if n == [] {
    } else if |l| == |n| {
      assert Lines(n)[1..] == [];
      assert n[|n| - 1] in l;
    } else {
      LinesOnce(n);
      LinesKeepEverything(n[|l| + 1..]);
      TerminatedBehind(l, n[|l| + 1..]);
    }
  }

  /** Only the line ends are rewritten: a file without CR is read as it is. */
  lemma {:induction false} NormalizeFixes(s: seq<byte>)
    ensures CR !in Normalize(s)
    ensures CR !in s ==> Normalize(s) == s
    decreases |s|
  {
    if s != [] {
      if s[0] == CR {
        NormalizeFixes(if |s| > 1 && s[1] == LF then s[2..] else s[1..]);
      } else {
        NormalizeFixes(s[1..]);
      }
    }
  }

  // ---------- writing with any line ends, and reading back ----------

  datatype End = Lf | CrLf | Cr

  datatype EndedLine = EndedLine(line: seq<byte>, end: End)

  function EndBytes(e: End): seq<byte> {
    match e
    case Lf => [10]
    case CrLf => [13, 10]
    case Cr => [13]
  }

  /** Lines with their ends, and possibly a last line without one. */
  function Written(ls: seq<EndedLine>, last: seq<byte>): seq<byte> {
    if ls == [] then last else ls[0].line + (EndBytes(ls[0].end) + Written(ls[1..], last))
  }

  predicate Plain(line: seq<byte>) {
    10 !in line && 13 !in line
  }

  ghost predicate AllPlain(ls: seq<EndedLine>) {
    forall i :: 0 <= i < |ls| ==> Plain(ls[i].line)
  }

  function LinesOf(ls: seq<EndedLine>, last: seq<byte>): seq<seq<byte>> {
    if ls == [] then (if last == [] then [] else [last]) else [ls[0].line] + LinesOf(ls[1..], last)
  }

  /** A line ended by CR alone, then an empty one ended by LF: together they look like one end. */
  predicate MergesAt(ls: seq<EndedLine>, i: nat)
    requires i < |ls|
  {
    i + 1 < |ls| && ls[i].end == Cr && ls[i + 1] == EndedLine([], Lf)
  }

  ghost predicate Merges(ls: seq<EndedLine>) {
    exists i :: 0 <= i < |ls| && MergesAt(ls, i)
  }

  /** How long the line end at the front of the bytes is. */
  function EndLength(rest: seq<byte>): nat {
    if |rest| > 1 && rest[0] == 13 && rest[1] == 10 then 2 else 1
  }

  /** One call reads up to the first line end, and over it. */
  lemma {:induction false} ScanPlain(l: seq<byte>, rest: seq<byte>)
    requires Plain(l) && rest != [] && (rest[0] == 10 || rest[0] == 13)
    ensures Scan(l + rest) == (l, |l| + EndLength(rest), true)
  {
    if l == [] {
      assert l + rest == rest;
    } else {
      assert (l + rest)[1..] == l[1..] + rest;
      ScanPlain(l[1..], rest);
      assert l == [l[0]] + l[1..];
    }
  }

  lemma {:induction false} ScanUnended(l: seq<byte>)
    requires Plain(l)
    ensures Scan(l) == (l, |l|, false)
  {
    if l != [] {
      ScanUnended(l[1..]);
      assert l == [l[0]] + l[1..];
    }
  }

  /** Which bytes follow a line: only an empty line ended by LF begins with LF. */
  lemma WrittenStart(ls: seq<EndedLine>, last: seq<byte>)
    requires AllPlain(ls) && Plain(last)
    ensures var w := Written(ls, last); w != [] && w[0] == 10 <==> ls != [] && ls[0] == EndedLine([], Lf)
    ensures ls != [] && ls[0] == EndedLine([], Lf) ==> Written(ls, last) == [10] + Written(ls[1..], last)
  {
    if ls != [] && ls[0].line != [] {
      assert Written(ls, last)[0] == ls[0].line[0];
    }
  }

  /** The first line is read; the bytes after it are those of the other lines, or of all but an empty one. */
  lemma ReadFirst(ls: seq<EndedLine>, last: seq<byte>)
    requires AllPlain(ls) && Plain(last) && ls != []
    ensures TextLines(Written(ls, last)) ==
            [ls[0].line] + TextLines(Written(if MergesAt(ls, 0) then ls[2..] else ls[1..], last))
  {
    var l, rest := ls[0].line, Written(ls[1..], last);
    assert AllPlain(ls[1..]) && Plain(l);
    WrittenStart(ls[1..], last);
    EndThenRest(ls[0].end, rest);
    FirstOff(l, EndBytes(ls[0].end) + rest);
    if MergesAt(ls, 0) {
      assert ls[1..][1..] == ls[2..];
      assert rest[1..] == Written(ls[2..], last);
    }
  }

  /** A line end, and what a reader takes it for when LF follows CR. */
  lemma EndThenRest(e: End, rest: seq<byte>)
    ensures var tail := EndBytes(e) + rest;
            && (tail[0] == 10 || tail[0] == 13)
            && EndLength(tail) <= |tail|
            && tail[EndLength(tail)..] == if e == Cr && rest != [] && rest[0] == 10 then rest[1..] else rest
  {
  }

  lemma FirstOff(l: seq<byte>, tail: seq<byte>)
    requires Plain(l) && tail != [] && (tail[0] == 10 || tail[0] == 13)
    ensures EndLength(tail) <= |tail| && TextLines(l + tail) == [l] + TextLines(tail[EndLength(tail)..])
  {
    ScanPlain(l, tail);
    ScanIsFirstLine(l + tail);
    assert (l + tail)[|l| + EndLength(tail)..] == tail[EndLength(tail)..];
  }

  lemma {:induction false} NoMoreLines(ls: seq<EndedLine>, last: seq<byte>)
    requires AllPlain(ls) && Plain(last)
    ensures |TextLines(Written(ls, last))| <= |LinesOf(ls, last)| == |ls| + if last == [] then 0 else 1
    decreases |ls|
  {
    if ls == [] {
      ReadLast(last);
    } else {
      ReadFirst(ls, last);
      NoMoreLines(ls[1..], last);
      if MergesAt(ls, 0) {
        NoMoreLines(ls[2..], last);
      }
    }
  }

  lemma ReadLast(last: seq<byte>)
    requires Plain(last)
    ensures TextLines(last) == LinesOf([], last)
  {
    ScanUnended(last);
    ScanIsFirstLine(last);
    assert last[|last|..] == [];
  }

  /**
   Whatever mixture of LF, CR LF and CR ends the lines of a file, reading it to its end gives exactly these lines, if and
   only if no line ended by CR is followed by an empty one ended by LF.
   */
  lemma {:induction false} ReadsBackExactly(ls: seq<EndedLine>, last: seq<byte>)
    requires AllPlain(ls) && Plain(last)
    ensures TextLines(Written(ls, last)) == LinesOf(ls, last) <==> !Merges(ls)
    decreases |ls|
  {
    if ls == [] {
      ReadLast(last);
    } else {
      var rest := ls[1..];
      ReadFirst(ls, last);
      NoMoreLines(ls, last);
      if MergesAt(ls, 0) {
        NoMoreLines(ls[2..], last);
      } else {
        ReadsBackExactly(rest, last);
        SameTail(ls[0].line, TextLines(Written(rest, last)), LinesOf(rest, last));
        if Merges(rest) {
          var i :| 0 <= i < |rest| && MergesAt(rest, i);
          assert MergesAt(ls, i + 1);
        }
        if Merges(ls) {
          var i :| 0 <= i < |ls| && MergesAt(ls, i);
          assert MergesAt(rest, i - 1);
        }
      }
    }
  }

  lemma SameTail(x: seq<byte>, a: seq<seq<byte>>, b: seq<seq<byte>>)
    ensures [x] + a == [x] + b <==> a == b
  {
    if [x] + a == [x] + b {
      assert a == ([x] + a)[1..] && b == ([x] + b)[1..];
    }
  }
}
