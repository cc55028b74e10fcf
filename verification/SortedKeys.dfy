/** Lexicographic order on keys and the canonical listing of a set of keys.
    The server walks Go maps in an arbitrary order and sorts the keys before it
    hands out revisions; the canonical listing is what makes that deterministic. */
module SortedKeys {

  predicate StrLess(a: string, b: string) {
    if b == "" then false
    else if a == "" then true
    else a[0] < b[0] || (a[0] == b[0] && StrLess(a[1..], b[1..]))
  }

  /** The strings agree up to n, and there a ends or has the smaller character. */
  predicate LessAt(a: string, b: string, n: nat) {
    n <= |a| && n < |b| && a[..n] == b[..n] && (n == |a| || a[n] < b[n])
  }

  /** The order is that of the first difference. */
  lemma {:induction false} StrLessMeans(a: string, b: string)
    ensures StrLess(a, b) <==> exists n: nat :: LessAt(a, b, n)
  {
    if a == "" && b != "" {
      assert LessAt(a, b, 0);
    } else if a != "" && b != "" {
      if a[0] < b[0] {
        assert LessAt(a, b, 0);
      }
      StrLessMeans(a[1..], b[1..]);
      if a[0] == b[0] {
        forall n: nat ensures LessAt(a[1..], b[1..], n) <==> LessAt(a, b, n + 1) {
          LessAtTail(a, b, n);
        }
        if n: nat :| LessAt(a, b, n) {
          assert LessAt(a[1..], b[1..], n - 1);
        }
        if n: nat :| LessAt(a[1..], b[1..], n) {
          assert LessAt(a, b, n + 1);
        }
      } else if n: nat :| LessAt(a, b, n) {
        assert n > 0 ==> a[..n][0] == b[..n][0];
      }
    }
  }

  lemma LessAtTail(a: string, b: string, n: nat)
    requires a != "" && b != "" && a[0] == b[0]
    ensures LessAt(a[1..], b[1..], n) <==> LessAt(a, b, n + 1)
  {
    if n < |a| && n < |b| {
      assert a[..n + 1] == [a[0]] + a[1..][..n] && b[..n + 1] == [b[0]] + b[1..][..n];
      assert a[1..][..n] == a[..n + 1][1..] && b[1..][..n] == b[..n + 1][1..];
    }
  }

  lemma {:induction false} StrTrichotomy(a: string, b: string)
    ensures StrLess(a, b) || a == b || StrLess(b, a)
    ensures !(StrLess(a, b) && StrLess(b, a))
    ensures !StrLess(a, a)
  {
    if a != "" {
      StrTrichotomy(a[1..], a[1..]);
    }
    if a != "" && b != "" {
      StrTrichotomy(a[1..], b[1..]);
      if a[0] == b[0] && a[1..] == b[1..] {
        assert a == [a[0]] + a[1..] && b == [b[0]] + b[1..];
      }
    }
  }

  lemma {:induction false} StrTransitive(a: string, b: string, c: string)
    requires StrLess(a, b) && StrLess(b, c)
    ensures StrLess(a, c)
  {
    if a != "" && a[0] == b[0] && b[0] == c[0] {
      StrTransitive(a[1..], b[1..], c[1..]);
    }
  }

  ghost predicate Ascending(ks: seq<string>) {
    forall i, j :: 0 <= i < j < |ks| ==> StrLess(ks[i], ks[j])
  }

  ghost predicate Distinct(ks: seq<string>) {
    forall i, j :: 0 <= i < j < |ks| ==> ks[i] != ks[j]
  }

  ghost function Elements(ks: seq<string>): set<string> {
    set k | k in ks
  }

  function Insert(k: string, ks: seq<string>): seq<string> {
    if ks == [] || StrLess(k, ks[0]) then [k] + ks else [ks[0]] + Insert(k, ks[1..])
  }

  function Sort(ks: seq<string>): seq<string> {
    if ks == [] then [] else Insert(ks[0], Sort(ks[1..]))
  }

  lemma {:induction false} InsertElements(k: string, ks: seq<string>)
    ensures Elements(Insert(k, ks)) == Elements(ks) + {k}
  {
    if ks == [] || StrLess(k, ks[0]) {
    } else {
      InsertElements(k, ks[1..]);
      assert Elements(ks) == {ks[0]} + Elements(ks[1..]) by { assert ks == [ks[0]] + ks[1..]; }
      var rest := Insert(k, ks[1..]);
      assert Elements([ks[0]] + rest) == {ks[0]} + Elements(rest);
    }
  }

  lemma {:induction false} InsertAscending(k: string, ks: seq<string>)
    requires Ascending(ks)
    requires k !in ks
    ensures Ascending(Insert(k, ks))
  {
    if ks == [] {
    } else if StrLess(k, ks[0]) {
      forall j | 0 <= j < |ks| ensures StrLess(k, ks[j]) {
        if j > 0 { StrTransitive(k, ks[0], ks[j]); }
      }
    } else {
      StrTrichotomy(k, ks[0]);
      InsertAscending(k, ks[1..]);
      InsertElements(k, ks[1..]);
      var rest := Insert(k, ks[1..]);
      forall j | 0 <= j < |rest| ensures StrLess(ks[0], rest[j]) {
        assert rest[j] in Elements(rest);
        if rest[j] != k {
          assert rest[j] in ks[1..];
        }
      }
    }
  }

  lemma {:induction false} SortSorts(ks: seq<string>)
    requires Distinct(ks)
    ensures Ascending(Sort(ks))
    ensures Elements(Sort(ks)) == Elements(ks)
  {
    if ks != [] {
      SortSorts(ks[1..]);
      assert ks == [ks[0]] + ks[1..];
      assert ks[0] !in ks[1..];
      assert ks[0] !in Elements(Sort(ks[1..]));
      InsertAscending(ks[0], Sort(ks[1..]));
      InsertElements(ks[0], Sort(ks[1..]));
      assert Elements(ks) == {ks[0]} + Elements(ks[1..]);
    }
  }

  lemma AscendingHead(a: seq<string>, b: seq<string>)
    requires Ascending(a) && Ascending(b)
    requires Elements(a) == Elements(b)
    requires a != []
    ensures b != [] && a[0] == b[0]
  {
    assert a[0] in Elements(b);
    assert b[0] in Elements(a);
    var i :| 0 <= i < |b| && b[i] == a[0];
    var j :| 0 <= j < |a| && a[j] == b[0];
    if i > 0 && j > 0 {
      StrTrichotomy(a[0], b[0]);
    }
  }

  /** Two ascending listings of the same keys are the same listing. */
  lemma {:induction false} AscendingUnique(a: seq<string>, b: seq<string>)
    requires Ascending(a) && Ascending(b)
    requires Elements(a) == Elements(b)
    ensures a == b
  {
    if a != [] {
      AscendingHead(a, b);
      TailElements(a);
      TailElements(b);
      AscendingUnique(a[1..], b[1..]);
      assert a == [a[0]] + a[1..] && b == [b[0]] + b[1..];
    } else if b != [] {
      AscendingHead(b, a);
    }
  }

  lemma TailElements(a: seq<string>)
    requires Ascending(a) && a != []
    ensures Elements(a[1..]) == Elements(a) - {a[0]}
  {
    assert a == [a[0]] + a[1..];
    forall i | 1 <= i < |a| ensures a[i] != a[0] { StrTrichotomy(a[0], a[i]); }
  }

  ghost function Enumerate(s: set<string>): (ks: seq<string>)
    ensures Elements(ks) == s && Distinct(ks)
  {
    if s == {} then [] else
      var k :| k in s;
      var rest := Enumerate(s - {k});
      assert Elements([k] + rest) == {k} + Elements(rest);
      assert forall i :: 0 <= i < |rest| ==> rest[i] in Elements(rest);
      [k] + rest
  }

  /** The ascending listing of a set of keys. */
  ghost function SortedSet(s: set<string>): (ks: seq<string>)
    ensures Ascending(ks) && Elements(ks) == s
  {
    SortSorts(Enumerate(s));
    Sort(Enumerate(s))
  }

  lemma AscendingDistinct(ks: seq<string>)
    requires Ascending(ks)
    ensures Distinct(ks)
  {
    forall i, j | 0 <= i < j < |ks| ensures ks[i] != ks[j] { StrTrichotomy(ks[i], ks[j]); }
  }

  /** Whatever order a map walk delivers the keys in, sorting them gives the
      canonical listing of the set. */
  lemma SortIsCanonical(ks: seq<string>)
    requires Distinct(ks)
    ensures Sort(ks) == SortedSet(Elements(ks))
  {
    SortSorts(ks);
    AscendingUnique(Sort(ks), SortedSet(Elements(ks)));
  }

  predicate HasPrefix(key: string, prefix: string) {
    |prefix| == 0 || (|key| >= |prefix| && key[..|prefix|] == prefix)
  }

  lemma HasPrefixMeans(key: string, prefix: string)
    ensures HasPrefix(key, prefix) <==> exists rest: string :: key == prefix + rest
  {
    if HasPrefix(key, prefix) {
      assert key == prefix + key[|prefix|..];
    }
  }

  /** The next element a map walk meets: any of those left. */
  method AnyOf<T(==)>(rest: set<T>) returns (x: T)
    requires rest != {}
    ensures x in rest
  {
    x :| x in rest;
  }
}
