/** The pure helpers around save files: file names per slot, choosing the
    latest file of a slot, the player directory name, and the index of
    saves kept sorted by slot and time. */
module SaveIndex {
  import opened Base
  import opened Text
  import opened SaveFormat
  import opened SaveBundle

  // ---- file names ----

  /** Whether `c` is kept by `sanitize`: an ASCII letter or digit, '-' or '_'. */
  predicate Allowed(c: char) {
    ('a' <= c <= 'z') || ('A' <= c <= 'Z') || ('0' <= c <= '9') || c == '-' || c == '_'
  }

  /** `sanitize`: every character not allowed becomes '_'. */
  function Sanitize(s: string): (r: string)
    ensures |r| == |s|
    ensures forall i :: 0 <= i < |s| ==> r[i] == (if Allowed(s[i]) then s[i] else '_')
  {
    seq(|s|, i requires 0 <= i < |s| => if Allowed(s[i]) then s[i] else '_')
  }

  /** Sanitized names hold only allowed characters, so sanitizing twice is
      sanitizing once, and an allowed name is left as it is. */
  lemma SanitizeLaws(s: string)
    ensures forall i :: 0 <= i < |Sanitize(s)| ==> Allowed(Sanitize(s)[i])
    ensures Sanitize(Sanitize(s)) == Sanitize(s)
    ensures (forall i :: 0 <= i < |s| ==> Allowed(s[i])) ==> Sanitize(s) == s
  {
  }

  /** `slotNN_`: the prefix of a slot's file names. */
  function SlotPrefix(slot: byte): string {
    "slot" + NatToString2(slot) + "_"
  }

  /** The shape of the name `save` gives a file: slot, time stamp and save
      id. The id is written here in decimal, where `save` writes the UUID in
      its hyphenated hexadecimal form; no property below depends on how the
      id is spelled, only on the prefix and the `.awsv` suffix. */
  function FileName(slot: byte, stamp: string, saveId: Uuid): string {
    SlotPrefix(slot) + stamp + "_" + NatToString(saveId) + ".awsv"
  }

  predicate EndsWith(s: string, suffix: string) {
    |suffix| <= |s| && s[|s| - |suffix|..] == suffix
  }

  /** A directory entry `load_latest_slot` considers for a slot: an `.awsv`
      file whose name starts with the slot's prefix. */
  predicate Candidate(name: string, slot: byte) {
    StartsWith(name, SlotPrefix(slot)) && EndsWith(name, ".awsv")
  }

  /** Every file `save` writes is a candidate for its own slot. */
  lemma SavedFileIsCandidate(slot: byte, stamp: string, saveId: Uuid)
    ensures Candidate(FileName(slot, stamp, saveId), slot)
  {
    var n := FileName(slot, stamp, saveId);
    assert n == SlotPrefix(slot) + (stamp + "_" + NatToString(saveId) + ".awsv");
    assert n[|n| - 5..] == ".awsv";
  }

  // ---- lexicographic order ----

  /** The lexicographic order of names, character by character. */
  predicate LexLe(a: string, b: string)
    decreases |a|
  {
    a == [] || (b != [] && (a[0] < b[0] || (a[0] == b[0] && LexLe(a[1..], b[1..]))))
  }

  lemma {:induction false} LexRefl(a: string)
    ensures LexLe(a, a)
    decreases |a|
  {
    if a != [] {
      LexRefl(a[1..]);
    }
  }

  lemma {:induction false} LexTotal(a: string, b: string)
    ensures LexLe(a, b) || LexLe(b, a)
    decreases |a|
  {
    if a != [] && b != [] && a[0] == b[0] {
      LexTotal(a[1..], b[1..]);
    }
  }

  lemma {:induction false} LexTrans(a: string, b: string, c: string)
    requires LexLe(a, b) && LexLe(b, c)
    ensures LexLe(a, c)
    decreases |a|
  {
    if a != [] && a[0] == b[0] && b[0] == c[0] {
      LexTrans(a[1..], b[1..], c[1..]);
    }
  }

  /** `load_latest_slot`'s choice among the directory's file names: the
      greatest candidate, or an error when the slot has none. */
  method LatestSlot(names: seq<string>, slot: byte) returns (r: Result<string, string>)
    ensures r.Ok? ==> r.value in names && Candidate(r.value, slot)
    ensures r.Ok? ==> forall n :: n in names && Candidate(n, slot) ==> LexLe(n, r.value)
    ensures r.Err? <==> forall n :: n in names ==> !Candidate(n, slot)
    ensures r.Err? ==> r.error == "no save for slot"
  {
    var best: Option<string> := None;
    var i := 0;
    while i < |names|
      invariant i <= |names|
      invariant best.None? <==> forall k :: 0 <= k < i ==> !Candidate(names[k], slot)
      invariant best.Some? ==> best.value in names[..i] && Candidate(best.value, slot)
      invariant best.Some? ==> forall k :: 0 <= k < i && Candidate(names[k], slot) ==> LexLe(names[k], best.value)
    {
      var n := names[i];
      if Candidate(n, slot) {
        LexRefl(n);
        if best.None? {
          best := Some(n);
        } else if LexLe(best.value, n) {
          forall k | 0 <= k < i && Candidate(names[k], slot)
            ensures LexLe(names[k], n)
          {
            LexTrans(names[k], best.value, n);
          }
          best := Some(n);
        } else {
          LexTotal(best.value, n);
        }
      }
      i := i + 1;
    }
    assert names[..i] == names;
    if best.None? {
      return Err("no save for slot");
    }
    return Ok(best.value);
  }

  // ---- the index ----

  datatype SaveMeta = SaveMeta(saveId: Uuid, file: string, createdAt: Timestamp, playerId: string,
                               slot: byte, schema: u16)

  /** The index order: by slot, then by creation time. */
  predicate KeyLe(a: SaveMeta, b: SaveMeta) {
    a.slot < b.slot || (a.slot == b.slot && a.createdAt <= b.createdAt)
  }

  predicate Sorted(s: seq<SaveMeta>) {
    forall i, j :: 0 <= i < j < |s| ==> KeyLe(s[i], s[j])
  }

  /** No two entries share a save id. */
  predicate UniqueIds(s: seq<SaveMeta>) {
    forall i, j :: 0 <= i < j < |s| ==> s[i].saveId != s[j].saveId
  }

  /** Inserts `x` after every entry whose key is not above its own, which
      keeps the sort stable. */
  function Insert(s: seq<SaveMeta>, x: SaveMeta): (r: seq<SaveMeta>)
    ensures |r| == |s| + 1 && multiset(r) == multiset(s) + multiset{x}
    decreases |s|
  {
    if s == [] then [x]
    else if KeyLe(s[0], x) then
      assert s == [s[0]] + s[1..];
      [s[0]] + Insert(s[1..], x)
    else [x] + s
  }

  /** The stable sort by key that `sort_by_key` performs. */
  function SortByKey(s: seq<SaveMeta>): (r: seq<SaveMeta>)
    ensures |r| == |s| && multiset(r) == multiset(s)
    decreases |s|
  {
    if s == [] then []
    else
      assert s == s[..|s| - 1] + [s[|s| - 1]];
      Insert(SortByKey(s[..|s| - 1]), s[|s| - 1])
  }

  lemma {:induction false} InsertSorted(s: seq<SaveMeta>, x: SaveMeta)
    requires Sorted(s)
    ensures Sorted(Insert(s, x))
    decreases |s|
  {
    if s != [] && KeyLe(s[0], x) {
      InsertSorted(s[1..], x);
      var r := Insert(s, x);
      forall j | 1 <= j < |r|
        ensures KeyLe(r[0], r[j])
      {
        assert r[j] in multiset(Insert(s[1..], x));
        assert r[j] in multiset(s[1..]) + multiset{x};
        if r[j] != x {
          assert r[j] in s[1..];
        }
      }
    }
  }

  lemma {:induction false} SortSorted(s: seq<SaveMeta>)
    ensures Sorted(SortByKey(s))
    decreases |s|
  {
    if s != [] {
      SortSorted(s[..|s| - 1]);
      InsertSorted(SortByKey(s[..|s| - 1]), s[|s| - 1]);
    }
  }

  /** The save ids of a list, as a multiset. */
  function Ids(s: seq<SaveMeta>): multiset<Uuid>
    decreases |s|
  {
    if s == [] then multiset{} else Ids(s[..|s| - 1]) + multiset{s[|s| - 1].saveId}
  }

  lemma {:induction false} IdsPermutation(a: seq<SaveMeta>, b: seq<SaveMeta>)
    requires multiset(a) == multiset(b)
    ensures Ids(a) == Ids(b)
    decreases |a|
  {
    if a != [] {
      var x := a[|a| - 1];
      assert x in multiset(b);
      var k :| 0 <= k < |b| && b[k] == x;
      var b' := b[..k] + b[k + 1..];
      assert b == b[..k] + [x] + b[k + 1..];
      assert a == a[..|a| - 1] + [x];
      assert multiset(b) == multiset(b[..k]) + multiset{x} + multiset(b[k + 1..]);
      assert multiset(a) == multiset(a[..|a| - 1]) + multiset{x};
      assert multiset(b') == multiset(b[..k]) + multiset(b[k + 1..]);
      assert multiset(a[..|a| - 1]) == multiset(a) - multiset{x};
      assert multiset(b') == multiset(b) - multiset{x};
      IdsPermutation(a[..|a| - 1], b');
      IdsSplit(b[..k], x, b[k + 1..]);
    }
  }

  lemma {:induction false} IdsConcat(a: seq<SaveMeta>, b: seq<SaveMeta>)
    ensures Ids(a + b) == Ids(a) + Ids(b)
    decreases |b|
  {
    if b == [] {
      assert a + b == a;
    } else {
      assert (a + b)[..|a + b| - 1] == a + b[..|b| - 1];
      IdsConcat(a, b[..|b| - 1]);
    }
  }

  lemma IdsSplit(p: seq<SaveMeta>, x: SaveMeta, q: seq<SaveMeta>)
    ensures Ids(p + [x] + q) == Ids(p + q) + multiset{x.saveId}
  {
    IdsConcat(p + [x], q);
    IdsConcat(p, q);
    assert (p + [x])[..|p + [x]| - 1] == p;
  }

  /** Ids are unique exactly when each occurs once. */
  lemma {:induction false} UniqueIdsCount(s: seq<SaveMeta>)
    ensures UniqueIds(s) <==> forall id :: Ids(s)[id] <= 1
    decreases |s|
  {
    if s != [] {
      var init := s[..|s| - 1];
      var last := s[|s| - 1];
      UniqueIdsCount(init);
      IdsHas(init, last.saveId);
      if UniqueIds(s) {
        assert UniqueIds(init);
      } else {
        var i, j :| 0 <= i < j < |s| && s[i].saveId == s[j].saveId;
        if j < |s| - 1 {
          assert init[i].saveId == init[j].saveId;
        } else {
          assert init[i].saveId == last.saveId;
          assert Ids(s)[last.saveId] >= 2;
        }
      }
    }
  }

  /** An id occurs in the multiset exactly when some entry has it. */
  lemma {:induction false} IdsHas(s: seq<SaveMeta>, id: Uuid)
    ensures (Ids(s)[id] > 0) <==> exists i :: 0 <= i < |s| && s[i].saveId == id
    decreases |s|
  {
    if s != [] {
      var init := s[..|s| - 1];
      IdsHas(init, id);
      if exists i :: 0 <= i < |init| && init[i].saveId == id {
        var i :| 0 <= i < |init| && init[i].saveId == id;
        assert s[i].saveId == id;
      }
      if exists i :: 0 <= i < |s| && s[i].saveId == id {
        var i :| 0 <= i < |s| && s[i].saveId == id;
        if i < |s| - 1 {
          assert init[i].saveId == id;
        }
      }
    }
  }

  /** The entry the index records for a saved bundle. */
  function MetaOf(v2: SaveBundleV2, file: string): SaveMeta {
    SaveMeta(v2.saveId, file, v2.createdAt, v2.playerId, v2.slot, v2.schema)
  }

  /** The entries that do not carry `id`, in order. */
  function Without(s: seq<SaveMeta>, id: Uuid): (r: seq<SaveMeta>)
    ensures |r| <= |s| && multiset(r) <= multiset(s)
    ensures forall k :: 0 <= k < |r| ==> r[k].saveId != id
    decreases |s|
  {
    if s == [] then []
    else
      assert s == s[..|s| - 1] + [s[|s| - 1]];
      var rest := Without(s[..|s| - 1], id);
      if s[|s| - 1].saveId != id then rest + [s[|s| - 1]] else rest
  }

  /** The list `write_or_update_index` stores: the old entries for other
      saves, plus the new entry, sorted by slot and time. */
  function UpdatedIndex(list: seq<SaveMeta>, v2: SaveBundleV2, file: string): seq<SaveMeta> {
    SortByKey(Without(list, v2.saveId) + [MetaOf(v2, file)])
  }

  /** The list logic of `write_or_update_index`: drop the entries with the
      bundle's save id, append the new entry, sort. */
  method UpdateIndex(list: seq<SaveMeta>, v2: SaveBundleV2, file: string) returns (out: seq<SaveMeta>)
    ensures out == UpdatedIndex(list, v2, file)
  {
    var kept: seq<SaveMeta> := [];
    var i := 0;
    while i < |list|
      invariant i <= |list|
      invariant kept == Without(list[..i], v2.saveId)
    {
      assert list[..i + 1][..i] == list[..i];
      if list[i].saveId != v2.saveId {
        kept := kept + [list[i]];
      }
      i := i + 1;
    }
    assert list[..i] == list;
    out := SortByKey(kept + [MetaOf(v2, file)]);
  }

  /** The stored index is sorted, holds the new entry, keeps exactly the
      old entries of other saves, and never has two entries for one save
      if the old one did not. */
  lemma UpdatedIndexLaws(list: seq<SaveMeta>, v2: SaveBundleV2, file: string)
    ensures var r := UpdatedIndex(list, v2, file);
      Sorted(r) && MetaOf(v2, file) in r
      && multiset(r) == multiset(Without(list, v2.saveId)) + multiset{MetaOf(v2, file)}
      && (UniqueIds(list) ==> UniqueIds(r))
  {
    var w := Without(list, v2.saveId);
    var m := MetaOf(v2, file);
    var r := UpdatedIndex(list, v2, file);
    SortSorted(w + [m]);
    assert multiset(r) == multiset(w) + multiset{m};
    assert m in multiset(r);
    if UniqueIds(list) {
      UpdatedUnique(list, w, m, r);
    }
  }

  lemma UpdatedUnique(list: seq<SaveMeta>, w: seq<SaveMeta>, m: SaveMeta, r: seq<SaveMeta>)
    requires UniqueIds(list) && w == Without(list, m.saveId)
    requires multiset(r) == multiset(w + [m])
    ensures UniqueIds(r)
  {
    UniqueIdsCount(list);
    WithoutIds(list, m.saveId);
    IdsConcat(w, [m]);
    assert Ids([m]) == multiset{m.saveId} by {
      assert [m][..0] == [];
    }
    IdsPermutation(r, w + [m]);
    forall id
      ensures Ids(r)[id] <= 1
    {
      WithoutCount(list, m.saveId, id);
    }
    UniqueIdsCount(r);
  }

  lemma WithoutCount(list: seq<SaveMeta>, id: Uuid, other: Uuid)
    requires forall x :: Ids(list)[x] <= 1
    ensures Ids(Without(list, id))[other] + (if other == id then 1 else 0) <= 1
  {
    WithoutIds(list, id);
    if other != id {
      assert Ids(list)[other] <= 1;
    }
  }

  lemma {:induction false} WithoutIds(s: seq<SaveMeta>, id: Uuid)
    ensures Ids(Without(s, id))[id] == 0
    ensures forall other :: other != id ==> Ids(Without(s, id))[other] == Ids(s)[other]
    decreases |s|
  {
    if s != [] {
      WithoutIds(s[..|s| - 1], id);
    }
  }
}
