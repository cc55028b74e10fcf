/** The write-ahead log as bytes: one encoded record per line, and a reader that
    ignores an unfinished last line. */
module Wal {
  import opened Commands

  newtype byte = x: int | 0 <= x < 256

  const NEWLINE: byte := 10

  /** The record codec: what is written for a command and what a line is read as. */
  datatype Codec = Codec(enc: Command -> seq<byte>, dec: seq<byte> -> Option<Command>)

  ghost predicate EncodesLines(codec: Codec) {
    forall c :: codec.enc(c) != [] && NEWLINE !in codec.enc(c)
  }

  ghost predicate ReadsBack(codec: Codec) {
    forall c :: codec.dec(codec.enc(c)) == Some(ThroughJson(c))
  }

  /** A record glued behind the beginning of another is not a record. */
  ghost predicate RejectsGlue(codec: Codec) {
    forall c, c', n :: 0 < n <= |codec.enc(c)| ==> codec.dec(codec.enc(c)[..n] + codec.enc(c')).None?
  }

  ghost predicate Readable(codec: Codec) {
    EncodesLines(codec) && ReadsBack(codec)
  }

  ghost predicate Lawful(codec: Codec) {
    Readable(codec) && RejectsGlue(codec)
  }

  // ----- Writing -----

  function Line(codec: Codec, c: Command): seq<byte> {
    codec.enc(c) + [NEWLINE]
  }

  function EncodeAll(codec: Codec, cs: seq<Command>): seq<byte> {
    if cs == [] then [] else Line(codec, cs[0]) + EncodeAll(codec, cs[1..])
  }

  // ----- Reading -----

  /** The number of bytes up to and including the last newline. */
  function CompleteLength(data: seq<byte>): (n: nat)
    ensures n <= |data|
    ensures NEWLINE !in data[n..]
    ensures n > 0 ==> data[n - 1] == NEWLINE
  {
    if data == [] then 0
    else if data[|data| - 1] == NEWLINE then |data|
    else CompleteLength(data[..|data| - 1])
  }

  function FirstNewline(data: seq<byte>): (i: nat)
    ensures i <= |data|
    ensures NEWLINE !in data[..i]
    ensures i < |data| ==> data[i] == NEWLINE
  {
    if data == [] || data[0] == NEWLINE then 0 else 1 + FirstNewline(data[1..])
  }

  /** Splitting at newlines; the piece after the last newline is kept. */
  function SplitLines(data: seq<byte>): seq<seq<byte>> {
    var i := FirstNewline(data);
    if i == |data| then [data] else [data[..i]] + SplitLines(data[i + 1..])
  }

  /** Decoding the lines in order; empty lines are skipped, a bad one is an error. */
  function DecodeLines(codec: Codec, lines: seq<seq<byte>>): Option<seq<Command>> {
    if lines == [] then Some([])
    else
      var before, line := DecodeLines(codec, lines[..|lines| - 1]), lines[|lines| - 1];
      if before.None? then None
      else if line == [] then before
      else if codec.dec(line).None? then None
      else Some(before.value + [codec.dec(line).value])
  }

  function Decode(codec: Codec, data: seq<byte>): Option<seq<Command>> {
    DecodeLines(codec, SplitLines(data[..CompleteLength(data)]))
  }

  method DecodeEntries(codec: Codec, data: seq<byte>) returns (entries: Option<seq<Command>>)
    ensures entries == Decode(codec, data)
  {
    var whole := data;
    if |data| > 0 && data[|data| - 1] != NEWLINE {
      var n := LastIndexOfNewline(data);
      if n < 0 {
        assert CompleteLength(data) == 0;
        assert SplitLines([]) == [[]] && DecodeLines(codec, [[]]) == Some([]);
        return Some([]);
      }
      whole := data[..n + 1];
    }
    assert whole == data[..CompleteLength(data)];
    var lines := SplitLines(whole);
    var acc: seq<Command> := [];
    for i := 0 to |lines|
      invariant DecodeLines(codec, lines[..i]) == Some(acc)
    {
      assert lines[..i + 1][..i] == lines[..i];
      if lines[i] != [] {
        var entry := codec.dec(lines[i]);
        if entry.None? {
          DecodeFailsEarly(codec, lines, i + 1);
          return None;
        }
        acc := acc + [entry.value];
      }
    }
    assert lines[..|lines|] == lines;
    return Some(acc);
  }

  method LastIndexOfNewline(data: seq<byte>) returns (n: int)
    ensures n == CompleteLength(data) - 1
  {
    n := |data| - 1;
    assert data[..|data|] == data;
    while n >= 0 && data[n] != NEWLINE
      invariant -1 <= n < |data|
      invariant CompleteLength(data) == CompleteLength(data[..n + 1])
    {
      assert data[..n + 1][..n] == data[..n];
      n := n - 1;
    }
  }

  lemma {:induction false} DecodeFailsEarly(codec: Codec, lines: seq<seq<byte>>, n: nat)
    requires n <= |lines| && DecodeLines(codec, lines[..n]).None?
    ensures DecodeLines(codec, lines).None?
  {
    if n == |lines| {
      assert lines[..n] == lines;
    } else {
      assert lines[..|lines| - 1][..n] == lines[..n];
      DecodeFailsEarly(codec, lines[..|lines| - 1], n);
    }
  }

  /** Reading from an offset; an offset inside a line is refused. */
  function ReadFrom(codec: Codec, data: seq<byte>, offset: int): Option<seq<Command>> {
    if offset < 0 || offset > |data| then None
    else if offset > 0 && data[offset - 1] != NEWLINE then None
    else Decode(codec, data[offset..])
  }

  method ReadEntriesFrom(codec: Codec, data: seq<byte>, offset: int) returns (entries: Option<seq<Command>>)
    ensures entries == ReadFrom(codec, data, offset)
  {
    if offset < 0 || offset > |data| {
      return None;
    }
    if offset > 0 && data[offset - 1] != NEWLINE {
      return None;
    }
    entries := DecodeEntries(codec, data[offset..]);
  }

  // ----- Round trip -----

  lemma {:induction false} CompletePart(data: seq<byte>, torn: seq<byte>)
    requires data == [] || data[|data| - 1] == NEWLINE
    requires NEWLINE !in torn
    ensures CompleteLength(data + torn) == |data|
  {
    if torn == [] {
      assert data + torn == data;
    } else {
      var n := |torn| - 1;
      CompletePart(data, torn[..n]);
      assert (data + torn)[..|data + torn| - 1] == data + torn[..n];
      assert (data + torn)[|data + torn| - 1] == torn[n];
    }
  }

  lemma {:induction false} FirstNewlineAt(line: seq<byte>, rest: seq<byte>)
    requires NEWLINE !in line
    ensures FirstNewline(line + [NEWLINE] + rest) == |line|
  {
    if line != [] {
      FirstNewlineAt(line[1..], rest);
      assert (line + [NEWLINE] + rest)[1..] == line[1..] + [NEWLINE] + rest;
    }
  }

  lemma SplitFirst(line: seq<byte>, rest: seq<byte>)
    requires NEWLINE !in line
    ensures SplitLines(line + [NEWLINE] + rest) == [line] + SplitLines(rest)
  {
    var data := line + [NEWLINE] + rest;
    FirstNewlineAt(line, rest);
    assert data[..|line|] == line && data[|line| + 1..] == rest;
  }

  function Encodings(codec: Codec, cs: seq<Command>): seq<seq<byte>> {
    seq(|cs|, i requires 0 <= i < |cs| => codec.enc(cs[i]))
  }

  lemma {:induction false} SplitEncoded(codec: Codec, cs: seq<Command>, rest: seq<byte>)
    requires EncodesLines(codec)
    ensures SplitLines(EncodeAll(codec, cs) + rest) == Encodings(codec, cs) + SplitLines(rest)
  {
    hide SplitLines;
    if cs == [] {
      assert EncodeAll(codec, cs) + rest == rest;
    } else {
      SplitEncoded(codec, cs[1..], rest);
      assert EncodeAll(codec, cs) + rest == codec.enc(cs[0]) + [NEWLINE] + (EncodeAll(codec, cs[1..]) + rest);
      SplitFirst(codec.enc(cs[0]), EncodeAll(codec, cs[1..]) + rest);
      assert Encodings(codec, cs) == [codec.enc(cs[0])] + Encodings(codec, cs[1..]);
    }
  }

  function AllThroughJson(cs: seq<Command>): seq<Command> {
    seq(|cs|, i requires 0 <= i < |cs| => ThroughJson(cs[i]))
  }

  lemma {:induction false} DecodeEncodings(codec: Codec, cs: seq<Command>)
    requires EncodesLines(codec) && ReadsBack(codec)
    ensures DecodeLines(codec, Encodings(codec, cs)) == Some(AllThroughJson(cs))
  {
    hide ThroughJson;
    if cs == [] {
      assert Encodings(codec, cs) == [] && AllThroughJson(cs) == [];
    } else {
      var n := |cs| - 1;
      DecodeEncodings(codec, cs[..n]);
      assert Encodings(codec, cs)[..n] == Encodings(codec, cs[..n]);
      assert Encodings(codec, cs)[n] == codec.enc(cs[n]) != [];
      assert codec.dec(codec.enc(cs[n])) == Some(ThroughJson(cs[n]));
      assert AllThroughJson(cs) == AllThroughJson(cs[..n]) + [ThroughJson(cs[n])];
    }
  }

  lemma {:induction false} EncodedEndsLine(codec: Codec, cs: seq<Command>)
    ensures cs != [] ==> EncodeAll(codec, cs) != [] && EncodeAll(codec, cs)[|EncodeAll(codec, cs)| - 1] == NEWLINE
  {
    if |cs| > 1 {
      EncodedEndsLine(codec, cs[1..]);
    }
  }

  /** Decoding undoes writing: any list of records, followed by any unfinished line,
      reads back as exactly that list. */
  lemma DecodeUndoesEncode(codec: Codec, cs: seq<Command>, torn: seq<byte>)
    requires EncodesLines(codec) && ReadsBack(codec)
    requires NEWLINE !in torn
    ensures Decode(codec, EncodeAll(codec, cs) + torn) == Some(AllThroughJson(cs))
  {
    var data := EncodeAll(codec, cs);
    EncodedEndsLine(codec, cs);
    CompletePart(data, torn);
    assert (data + torn)[..|data|] == data;
    SplitEncoded(codec, cs, []);
    assert data + [] == data && SplitLines([]) == [[]];
    DecodeEncodings(codec, cs);
    var lines := Encodings(codec, cs) + [[]];
    assert lines[..|lines| - 1] == Encodings(codec, cs);
  }

  lemma EncodeCons(codec: Codec, cs: seq<Command>)
    requires cs != []
    ensures EncodeAll(codec, cs) == Line(codec, cs[0]) + EncodeAll(codec, cs[1..])
  {
    hide Line;
  }

  lemma Joined(a: seq<byte>, b: seq<byte>, c: seq<byte>)
    ensures a + (b + c) == a + b + c
  {
  }

  lemma {:induction false} EncodeConcat(codec: Codec, a: seq<Command>, b: seq<Command>)
    ensures EncodeAll(codec, a + b) == EncodeAll(codec, a) + EncodeAll(codec, b)
  {
    hide EncodeAll, Line;
    if a == [] {
      assert a + b == b;
      EncodeNone(codec);
    } else {
      EncodeConcat(codec, a[1..], b);
      assert (a + b)[1..] == a[1..] + b;
      EncodeCons(codec, a);
      EncodeCons(codec, a + b);
      Joined(Line(codec, a[0]), EncodeAll(codec, a[1..]), EncodeAll(codec, b));
    }
  }

  /** From any record boundary the reader returns exactly the remaining records. */
  lemma ReadFromBoundary(codec: Codec, cs: seq<Command>, k: nat, torn: seq<byte>)
    requires EncodesLines(codec) && ReadsBack(codec)
    requires NEWLINE !in torn && k <= |cs|
    ensures ReadFrom(codec, EncodeAll(codec, cs) + torn, |EncodeAll(codec, cs[..k])|) == Some(AllThroughJson(cs[k..]))
  {
    hide Decode, EncodesLines, ReadsBack, AllThroughJson;
    DecodeUndoesEncode(codec, cs[k..], torn);
    ReadFromSplit(codec, cs, k, torn);
  }

  lemma ReadFromSplit(codec: Codec, cs: seq<Command>, k: nat, rest: seq<byte>)
    requires k <= |cs|
    ensures ReadFrom(codec, EncodeAll(codec, cs) + rest, |EncodeAll(codec, cs[..k])|) ==
              Decode(codec, EncodeAll(codec, cs[k..]) + rest)
  {
    hide Decode, EncodeAll;
    var head, tail := EncodeAll(codec, cs[..k]), EncodeAll(codec, cs[k..]);
    EncodeConcat(codec, cs[..k], cs[k..]);
    assert cs[..k] + cs[k..] == cs;
    var data := EncodeAll(codec, cs) + rest;
    assert data == head + (tail + rest);
    if k > 0 {
      EncodedEndsLine(codec, cs[..k]);
      assert data[|head| - 1] == head[|head| - 1];
    } else {
      assert cs[..k] == [];
      EncodeNone(codec);
    }
    assert data[|head|..] == tail + rest;
  }

  lemma EncodeNone(codec: Codec)
    ensures EncodeAll(codec, []) == []
  {
  }

  // ----- A torn tail that is written over -----

  /** The first bytes of some record, not ended by a newline. */
  ghost predicate IsTorn(codec: Codec, torn: seq<byte>) {
    exists c, n :: 0 < n <= |codec.enc(c)| && torn == codec.enc(c)[..n]
  }

  lemma TornHasNoNewline(codec: Codec, torn: seq<byte>)
    requires EncodesLines(codec) && (torn == [] || IsTorn(codec, torn))
    ensures NEWLINE !in torn
  {
    if torn != [] {
      var c, n :| 0 < n <= |codec.enc(c)| && torn == codec.enc(c)[..n];
      assert NEWLINE !in codec.enc(c);
    }
  }

  lemma GluedIsRejected(codec: Codec, torn: seq<byte>, c: Command)
    requires Lawful(codec) && IsTorn(codec, torn)
    ensures var glued := torn + codec.enc(c);
            glued != [] && NEWLINE !in glued && codec.dec(glued).None?
  {
    TornHasNoNewline(codec, torn);
    assert NEWLINE !in codec.enc(c);
  }

  lemma DecodeGlued(codec: Codec, cs: seq<Command>, glued: seq<byte>)
    requires EncodesLines(codec) && glued != [] && NEWLINE !in glued && codec.dec(glued).None?
    ensures Decode(codec, EncodeAll(codec, cs) + (glued + [NEWLINE])) == None
  {
    hide EncodesLines, EncodeAll, SplitLines, Encodings;
    var data := EncodeAll(codec, cs) + (glued + [NEWLINE]);
    assert CompleteLength(data) == |data| && data[..|data|] == data;
    SplitEncoded(codec, cs, glued + [NEWLINE]);
    SplitFirst(glued, []);
    SplitNothing();
    assert glued + [NEWLINE] + [] == glued + [NEWLINE];
    var lines := Encodings(codec, cs) + ([glued] + [[]]);
    assert lines[..|lines| - 1] == Encodings(codec, cs) + [glued];
    GluedLineFails(codec, Encodings(codec, cs), glued);
  }

  lemma SplitNothing()
    ensures SplitLines([]) == [[]]
  {
  }

  /** A record appended behind a torn one makes the file unreadable, from the start
      and from every record boundary before the tear. */
  lemma TornAppendIsUnreadable(codec: Codec, cs: seq<Command>, k: nat, torn: seq<byte>, c: Command)
    requires Lawful(codec) && IsTorn(codec, torn) && k <= |cs|
    ensures ReadFrom(codec, EncodeAll(codec, cs) + (torn + Line(codec, c)), |EncodeAll(codec, cs[..k])|) == None
  {
    hide Decode, EncodesLines, ReadsBack, RejectsGlue, IsTorn, EncodeAll, ReadFrom;
    var glued := torn + codec.enc(c);
    GluedIsRejected(codec, torn, c);
    DecodeGlued(codec, cs[k..], glued);
    assert torn + Line(codec, c) == glued + [NEWLINE];
    ReadFromSplit(codec, cs, k, glued + [NEWLINE]);
  }

  lemma GluedLineFails(codec: Codec, lines: seq<seq<byte>>, bad: seq<byte>)
    requires bad != [] && codec.dec(bad).None?
    ensures DecodeLines(codec, lines + [bad]).None?
  {
    assert (lines + [bad])[..|lines|] == lines;
  }
}
