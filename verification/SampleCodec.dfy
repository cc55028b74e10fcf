/** A record codec that meets every law the journal results ask of one: a start byte,
    then the command as a list of numbers in tally marks. */
module SampleCodec {
  import opened Commands
  import opened Wal

  const START: byte := 1
  const MARK: byte := 2
  const STOP: byte := 3

  function Tally(n: nat): seq<byte> {
    seq(n, _ => MARK) + [STOP]
  }

  function Digits(ns: seq<nat>): seq<byte> {
    if ns == [] then [] else Tally(ns[0]) + Digits(ns[1..])
  }

  function Zigzag(n: int): nat {
    if n >= 0 then 2 * n else -2 * n - 1
  }

  function Letters(s: string): seq<nat> {
    [|s|] + seq(|s|, i requires 0 <= i < |s| => s[i] as int)
  }

  function TypeCode(t: CommandType): nat {
    match t
    case Put => 0
    case Get => 1
    case Delete => 2
    case LeaseGrant => 3
    case LeaseRevoke => 4
    case LeaseAttach => 5
    case LeaseKeepAlive => 6
    case CAS => 7
    case DeletePrefix => 8
    case GetPrefix => 9
    case Unknown(code) => 10 + Zigzag(code)
  }

  function Numbers(c: Command): seq<nat> {
    [TypeCode(c.typ), Zigzag(c.leaseID), Zigzag(c.ttl), Zigzag(c.expireAt), Zigzag(c.revision),
     Zigzag(c.expectedRev), if c.tombstone then 1 else 0]
    + (Letters(c.key) + (Letters(c.value) + Letters(c.prefix)))
  }

  function Encode(c: Command): seq<byte> {
    [START] + Digits(Numbers(c))
  }

  ghost function DecodeLine(line: seq<byte>): Option<Command> {
    if exists c :: Encode(c) == line
    then
      var c :| Encode(c) == line;
      Some(ThroughJson(c))
    else None
  }

  ghost function Sample(): Codec {
    Codec(Encode, DecodeLine)
  }

  lemma {:induction false} DigitBytes(ns: seq<nat>)
    ensures forall b :: b in Digits(ns) ==> b == MARK || b == STOP
  {
    if ns != [] {
      DigitBytes(ns[1..]);
    }
  }

  lemma FirstStop(n: nat, rest: seq<byte>)
    ensures var s := Tally(n) + rest;
            && |s| > n && s[n] == STOP && rest == s[n + 1..]
            && forall i :: 0 <= i < n ==> s[i] == MARK
  {
  }

  lemma TalliesDiffer(m: nat, n: nat, a: seq<byte>, b: seq<byte>)
    requires Tally(m) + a == Tally(n) + b
    ensures m == n && a == b
  {
    FirstStop(m, a);
    FirstStop(n, b);
  }

  lemma DigitsEmpty(ns: seq<nat>)
    ensures Digits(ns) == [] <==> ns == []
  {
  }

  lemma {:induction false} DigitsInjective(a: seq<nat>, b: seq<nat>)
    requires Digits(a) == Digits(b)
    ensures a == b
  {
    DigitsEmpty(a);
    DigitsEmpty(b);
    if a != [] {
      TalliesDiffer(a[0], b[0], Digits(a[1..]), Digits(b[1..]));
      DigitsInjective(a[1..], b[1..]);
      assert a == [a[0]] + a[1..] && b == [b[0]] + b[1..];
    }
  }

  lemma LettersInjective(s: string, t: string, a: seq<nat>, b: seq<nat>)
    requires Letters(s) + a == Letters(t) + b
    ensures s == t && a == b
  {
    var p, q := Letters(s) + a, Letters(t) + b;
    assert p[0] == |s| && q[0] == |t|;
    forall i | 0 <= i < |s| ensures s[i] == t[i] {
      assert p[i + 1] == s[i] as int && q[i + 1] == t[i] as int;
    }
    assert a == p[|s| + 1..] && b == q[|t| + 1..];
  }

  lemma NumbersInjective(c: Command, d: Command)
    requires Numbers(c) == Numbers(d)
    ensures c == d
  {
    var p, q := Numbers(c), Numbers(d);
    assert forall i :: 0 <= i < 7 ==> p[i] == q[i];
    var a, b := Letters(c.value) + Letters(c.prefix), Letters(d.value) + Letters(d.prefix);
    assert p[7..] == Letters(c.key) + a && q[7..] == Letters(d.key) + b;
    LettersInjective(c.key, d.key, a, b);
    LettersInjective(c.value, d.value, Letters(c.prefix), Letters(d.prefix));
    assert Letters(c.prefix) + [] == Letters(c.prefix) && Letters(d.prefix) + [] == Letters(d.prefix);
    LettersInjective(c.prefix, d.prefix, [], []);
    assert p[0] == TypeCode(c.typ) && q[0] == TypeCode(d.typ);
    assert p[1] == Zigzag(c.leaseID) && p[2] == Zigzag(c.ttl) && p[3] == Zigzag(c.expireAt);
    assert p[4] == Zigzag(c.revision) && p[5] == Zigzag(c.expectedRev);
  }

  lemma EncodeInjective(c: Command, d: Command)
    requires Encode(c) == Encode(d)
    ensures c == d
  {
    assert Encode(c)[1..] == Digits(Numbers(c)) && Encode(d)[1..] == Digits(Numbers(d));
    DigitsInjective(Numbers(c), Numbers(d));
    NumbersInjective(c, d);
  }

  lemma DecodesOwn(c: Command)
    ensures DecodeLine(Encode(c)) == Some(ThroughJson(c))
  {
    hide ThroughJson, Encode;
    forall d | Encode(d) == Encode(c) ensures d == c {
      EncodeInjective(d, c);
    }
  }

  lemma OneStart(c: Command, i: nat)
    ensures 0 < i < |Encode(c)| ==> Encode(c)[i] != START
  {
    var digits := Digits(Numbers(c));
    if 0 < i < |Encode(c)| {
      DigitBytes(Numbers(c));
      assert Encode(c)[i] == digits[i - 1] && digits[i - 1] in digits;
    }
  }

  /** Glued lines have a second start byte. */
  lemma RefusesGlued(c: Command, d: Command, n: nat)
    requires 0 < n <= |Encode(c)|
    ensures DecodeLine(Encode(c)[..n] + Encode(d)).None?
  {
    var glued := Encode(c)[..n] + Encode(d);
    assert n < |glued| && glued[n] == START by {
      assert Encode(d)[0] == START;
    }
    forall e ensures Encode(e) != glued {
      OneStart(e, n);
    }
  }

  /** The laws of the record codec can be met. */
  lemma SampleIsLawful()
    ensures Lawful(Sample())
  {
    hide DecodeLine, ThroughJson;
    forall c ensures Encode(c) != [] && NEWLINE !in Encode(c) {
      DigitBytes(Numbers(c));
    }
    forall c ensures DecodeLine(Encode(c)) == Some(ThroughJson(c)) {
      DecodesOwn(c);
    }
    forall c, d, n | 0 < n <= |Encode(c)| ensures DecodeLine(Encode(c)[..n] + Encode(d)).None? {
      RefusesGlued(c, d, n);
    }
  }
}
