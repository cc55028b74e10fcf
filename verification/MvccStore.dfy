/** The multi-version key-value store: every key keeps the list of its versions,
    a delete appends a tombstone, and reads may ask for an old revision. */
module MvccStore {
  import opened Commands
  import opened SortedKeys

  datatype Version = Version(revision: int, value: string, tombstone: bool)

  datatype Store = Store(
    data: map<string, seq<Version>>,
    key2Lease: map<string, int>,
    rev: int)

  const EMPTY_STORE := Store(map[], map[], 0)

  function History(s: Store, k: string): seq<Version> {
    if k in s.data then s.data[k] else []
  }

  predicate IsLive(s: Store, k: string) {
    var h := History(s, k);
    h != [] && !h[|h| - 1].tombstone
  }

  function Latest(s: Store, k: string): Version
    requires History(s, k) != []
  {
    var h := History(s, k);
    h[|h| - 1]
  }

  function LeaseOf(s: Store, k: string): int {
    if k in s.key2Lease then s.key2Lease[k] else 0
  }

  // ----- Writing -----

  /** Revision 0 asks the store for its next one; any other is taken as given. */
  function AssignedRevision(s: Store, requested: int): int {
    if requested == 0 then s.rev + 1 else requested
  }

  function AddVersion(s: Store, k: string, requested: int, value: string, tombstone: bool): Store {
    var r := AssignedRevision(s, requested);
    s.(data := s.data[k := History(s, k) + [Version(r, value, tombstone)]],
       rev := if r > s.rev then r else s.rev)
  }

  function SetLease(s: Store, k: string, leaseID: int): Store {
    s.(key2Lease := s.key2Lease[k := leaseID])
  }

  function Unlease(s: Store, k: string): Store {
    s.(key2Lease := s.key2Lease - {k})
  }

  predicate CasMatches(s: Store, k: string, expected: int) {
    IsLive(s, k) && Latest(s, k).revision == expected
  }

  /** A reply of the store: a text, or the error for a type it does not know. */
  datatype Reply = Text(text: string) | UnknownType

  function ApplyStore(s: Store, cmd: Command): Store {
    match cmd.typ
    case Put =>
      var s' := AddVersion(s, cmd.key, cmd.revision, cmd.value, false);
      if cmd.leaseID > 0 then SetLease(s', cmd.key, cmd.leaseID) else Unlease(s', cmd.key)
    case Delete =>
      TombstoneAt(s, cmd.key, cmd.revision)
    case CAS =>
      if CasMatches(s, cmd.key, cmd.expectedRev)
      then AddVersion(s, cmd.key, cmd.revision, cmd.value, false)
      else s
    case LeaseAttach =>
      if cmd.leaseID > 0
      then AddVersion(SetLease(s, cmd.key, cmd.leaseID), cmd.key, cmd.revision, cmd.value, false)
      else s
    case _ => s
  }

  function ApplyReply(s: Store, cmd: Command): Reply {
    match cmd.typ
    case Put => Text("")
    case Get => Text(ReadAt(History(s, cmd.key), cmd.revision).0)
    case Delete => Text("")
    case CAS => Text(if CasMatches(s, cmd.key, cmd.expectedRev) then "OK" else "CAS_FAILED")
    case LeaseAttach => Text("")
    case _ => UnknownType
  }

  function TombstoneAt(s: Store, k: string, requested: int): Store {
    Unlease(AddVersion(s, k, requested, "", true), k)
  }

  /** Tombstones for the listed keys at revisions base+1, base+2, and so on. */
  function TombstoneFrom(s: Store, base: int, ks: seq<string>): Store {
    if ks == [] then s
    else TombstoneAt(TombstoneFrom(s, base, ks[..|ks| - 1]), ks[|ks| - 1], base + |ks|)
  }

  ghost function Matching(s: Store, prefix: string): set<string> {
    set k | k in s.data && HasPrefix(k, prefix)
  }

  ghost function DeletedKeys(s: Store, prefix: string): seq<string> {
    SortedSet(Matching(s, prefix))
  }

  ghost function DeletePrefixStore(s: Store, prefix: string): Store {
    TombstoneFrom(s, s.rev, DeletedKeys(s, prefix))
  }

  // ----- Reading -----

  predicate Visible(v: Version, rev: int) {
    rev == 0 || v.revision <= rev
  }

  function Shown(v: Version): (string, int) {
    (if v.tombstone then "" else v.value, v.revision)
  }

  /** The newest version not above rev; revision 0 reads the newest of all. */
  function ReadAt(h: seq<Version>, rev: int): (string, int) {
    if h == [] then ("", 0)
    else if Visible(h[|h| - 1], rev) then Shown(h[|h| - 1])
    else ReadAt(h[..|h| - 1], rev)
  }

  /** The plain map of live keys and their current values. */
  ghost function View(s: Store): map<string, string> {
    map k | k in s.data && IsLive(s, k) :: Latest(s, k).value
  }

  /** A read returns the version behind which no other is visible, with its own value
      and revision. */
  lemma {:induction false} ReadsNewestVisible(h: seq<Version>, rev: int, i: nat)
    requires i < |h| && (rev == 0 || h[i].revision <= rev)
    requires forall j :: i < j < |h| ==> !(rev == 0 || h[j].revision <= rev)
    ensures ReadAt(h, rev) == (if h[i].tombstone then "" else h[i].value, h[i].revision)
  {
    if i < |h| - 1 {
      assert h[|h| - 1].revision > rev && rev != 0;
      var older := h[..|h| - 1];
      assert forall j :: i < j < |older| ==> older[j].revision > rev;
      ReadsNewestVisible(older, rev, i);
    }
  }

  lemma {:induction false} ReadsNothing(h: seq<Version>, rev: int)
    requires forall j :: 0 <= j < |h| ==> !(rev == 0 || h[j].revision <= rev)
    ensures ReadAt(h, rev) == ("", 0)
  {
    if h != [] {
      assert h[|h| - 1].revision > rev && rev != 0;
      var older := h[..|h| - 1];
      assert forall j :: 0 <= j < |older| ==> older[j].revision > rev;
      ReadsNothing(older, rev);
    }
  }

  /** A plain read is a look into the plain map. */
  lemma PlainRead(s: Store, k: string)
    ensures ReadAt(History(s, k), 0).0 == if k in View(s) then View(s)[k] else ""
  {
    if History(s, k) != [] {
      ReadsNewestVisible(History(s, k), 0, |History(s, k)| - 1);
    }
  }

  // ----- What every reachable store satisfies -----

  ghost predicate HistoryOk(h: seq<Version>, rev: int) {
    && h != []
    && (forall i :: 0 <= i < |h| ==> 1 <= h[i].revision <= rev)
    && (forall i, j :: 0 <= i < j < |h| ==> h[i].revision < h[j].revision)
  }

  ghost predicate StoreOk(s: Store) {
    && s.rev >= 0
    && (forall k :: k in s.data ==> HistoryOk(s.data[k], s.rev))
    && (forall k :: k in s.key2Lease ==> s.key2Lease[k] > 0 && IsLive(s, k))
  }

  /** A revision names one version of one key. */
  ghost predicate RevisionsUnique(s: Store) {
    forall k, k', i, j |
      && k in s.data && k' in s.data
      && 0 <= i < |s.data[k]| && 0 <= j < |s.data[k']|
      && s.data[k][i].revision == s.data[k'][j].revision ::
      k == k' && i == j
  }

  lemma AddVersionOk(s: Store, k: string, r: int, value: string, tombstone: bool)
    requires StoreOk(s)
    requires r == 0 || r > s.rev
    requires tombstone ==> k !in s.key2Lease
    ensures StoreOk(AddVersion(s, k, r, value, tombstone))
  {
    var s' := AddVersion(s, k, r, value, tombstone);
    forall k' | k' in s'.data ensures HistoryOk(s'.data[k'], s'.rev) {
      if k' != k {
        assert HistoryOk(s.data[k'], s.rev);
      } else if k in s.data {
        assert HistoryOk(s.data[k], s.rev);
      }
    }
    forall k' | k' in s'.key2Lease ensures s'.key2Lease[k'] > 0 && IsLive(s', k') {
      assert IsLive(s, k');
    }
  }

  /** A write appends one version to one key, at the requested revision or, without one,
      at the store's next, and the store's revision never falls behind. */
  lemma AddedVersion(s: Store, k: string, r: int, value: string, tombstone: bool, k': string)
    ensures var s' := AddVersion(s, k, r, value, tombstone);
            var taken := if r == 0 then s.rev + 1 else r;
            && History(s', k') == (if k' == k then History(s, k) + [Version(taken, value, tombstone)] else History(s, k'))
            && s'.rev == (if taken > s.rev then taken else s.rev) && s'.key2Lease == s.key2Lease
  {
  }

  lemma VersionBound(s: Store, k: string, i: nat)
    requires StoreOk(s) && k in s.data && i < |s.data[k]|
    ensures s.data[k][i].revision <= s.rev
  {
    assert HistoryOk(s.data[k], s.rev);
  }

  lemma AddVersionUnique(s: Store, k: string, r: int, value: string, tombstone: bool)
    requires StoreOk(s) && RevisionsUnique(s)
    requires r == 0 || r > s.rev
    ensures RevisionsUnique(AddVersion(s, k, r, value, tombstone))
  {
    hide StoreOk;
    var s' := AddVersion(s, k, r, value, tombstone);
    forall k', i | k' in s'.data && 0 <= i < |s'.data[k']|
      ensures (k' == k && i == |s'.data[k]| - 1) ||
              (k' in s.data && i < |s.data[k']| && s'.data[k'][i] == s.data[k'][i] && s'.data[k'][i].revision <= s.rev)
    {
      if k' in s.data && i < |s.data[k']| { VersionBound(s, k', i); }
    }
  }

  lemma UnleaseOk(s: Store, k: string)
    requires StoreOk(s)
    ensures StoreOk(Unlease(s, k))
  {
    forall k' | k' in Unlease(s, k).key2Lease ensures IsLive(Unlease(s, k), k') {
      assert IsLive(s, k');
    }
  }

  lemma TombstoneOk(s: Store, k: string, r: int)
    requires StoreOk(s)
    requires r == 0 || r > s.rev
    ensures StoreOk(TombstoneAt(s, k, r))
  {
    hide StoreOk;
    UnleaseOk(s, k);
    AddVersionOk(Unlease(s, k), k, r, "", true);
    assert TombstoneAt(s, k, r) == AddVersion(Unlease(s, k), k, r, "", true);
  }

  lemma {:induction false} TombstoneFromRev(s: Store, base: int, ks: seq<string>)
    requires s.rev <= base && 0 <= base
    ensures TombstoneFrom(s, base, ks).rev == if ks == [] then s.rev else base + |ks|
  {
    if ks != [] {
      TombstoneFromRev(s, base, ks[..|ks| - 1]);
    }
  }

  lemma {:induction false} TombstoneFromOk(s: Store, base: int, ks: seq<string>)
    requires StoreOk(s)
    requires s.rev <= base && 0 <= base
    ensures StoreOk(TombstoneFrom(s, base, ks))
  {
    hide StoreOk;
    if ks != [] {
      var s' := TombstoneFrom(s, base, ks[..|ks| - 1]);
      TombstoneFromOk(s, base, ks[..|ks| - 1]);
      TombstoneFromRev(s, base, ks[..|ks| - 1]);
      TombstoneOk(s', ks[|ks| - 1], base + |ks|);
    }
  }

  lemma {:induction false} TombstoneFromUnique(s: Store, base: int, ks: seq<string>)
    requires StoreOk(s) && RevisionsUnique(s)
    requires s.rev <= base && 0 <= base
    ensures RevisionsUnique(TombstoneFrom(s, base, ks))
  {
    hide StoreOk, RevisionsUnique;
    if ks != [] {
      var s' := TombstoneFrom(s, base, ks[..|ks| - 1]);
      TombstoneFromUnique(s, base, ks[..|ks| - 1]);
      TombstoneFromOk(s, base, ks[..|ks| - 1]);
      TombstoneFromRev(s, base, ks[..|ks| - 1]);
      TombstoneUnique(s', ks[|ks| - 1], base + |ks|);
    }
  }

  lemma TombstoneUnique(s: Store, k: string, r: int)
    requires StoreOk(s) && RevisionsUnique(s)
    requires r == 0 || r > s.rev
    ensures RevisionsUnique(TombstoneAt(s, k, r))
  {
    AddVersionUnique(s, k, r, "", true);
  }

  /** The effect of one tombstone, key by key. */
  lemma TombstoneAtHistory(s: Store, k0: string, r: int, k: string)
    requires r != 0
    ensures History(TombstoneAt(s, k0, r), k) ==
              if k == k0 then History(s, k) + [Version(r, "", true)] else History(s, k)
    ensures k in TombstoneAt(s, k0, r).data <==> k in s.data || k == k0
    ensures k in TombstoneAt(s, k0, r).key2Lease <==> k in s.key2Lease && k != k0
    ensures LeaseOf(TombstoneAt(s, k0, r), k) == if k == k0 then 0 else LeaseOf(s, k)
  {
  }

  /** Every listed key gains exactly one tombstone, at the revision of its place in
      the listing; no other key's history changes. */
  lemma {:induction false} TombstoneFromHistory(s: Store, base: int, ks: seq<string>, k: string)
    requires Distinct(ks)
    requires 0 <= base
    ensures k !in ks ==> History(TombstoneFrom(s, base, ks), k) == History(s, k)
    ensures forall i :: 0 <= i < |ks| && ks[i] == k ==>
              History(TombstoneFrom(s, base, ks), k) == History(s, k) + [Version(base + 1 + i, "", true)]
    ensures k in TombstoneFrom(s, base, ks).data <==> k in s.data || k in ks
    ensures k in TombstoneFrom(s, base, ks).key2Lease <==> k in s.key2Lease && k !in ks
    ensures LeaseOf(TombstoneFrom(s, base, ks), k) == if k in ks then 0 else LeaseOf(s, k)
  {
    hide TombstoneAt, History, LeaseOf;
    if ks != [] {
      var n := |ks| - 1;
      assert ks == ks[..n] + [ks[n]];
      TombstoneFromHistory(s, base, ks[..n], k);
      TombstoneAtHistory(TombstoneFrom(s, base, ks[..n]), ks[n], base + |ks|, k);
    }
  }
}
