/** Saving the authorized pages of the store, and replaying what was saved. */
module PageBackup {
  import opened Wrappers
  import opened Sequences
  import opened Grants
  import opened PageStore
  import opened InstagramIndex

  /** A saved page. */
  datatype Record = Record(id: string, name: string, instagram: Option<Instagram>, accounts: seq<Grant>, fields: seq<string>)

  function RecordOf(p: PageState): Record {
    Record(p.id, p.name, p.instagram, p.accounts, p.fields)
  }

  /** The picture of an Instagram account is saved but not restored. */
  function RestoredAccount(ig: Option<Instagram>): Option<Instagram> {
    if ig.Some? then Some(ig.value.(picture := "")) else None
  }

  function RestoredState(b: Record): PageState {
    PageState(b.id, b.name, RestoredAccount(b.instagram), b.accounts, ActiveToken(b.accounts), b.fields)
  }

  /** The records written when the index is walked in this order; a page indexed twice is written twice. */
  function SaveAll<R(==)>(s: Store<R>, order: seq<string>): seq<Record> {
    if order == [] then [] else
    var k := order[|order| - 1];
    SaveAll(s, DropLast(order)) +
    (if k in s.index && s.index[k] in s.states && s.At(k).Authorized?() then [RecordOf(s.At(k))] else [])
  }

  /** The page a record is put back on: the one its id leads to, or a new one. */
  function Base<R(==)>(s: Store<R>, b: Record): PageState {
    if b.id in s.index && s.index[b.id] in s.states then s.states[s.index[b.id]]
    else PageState(b.id, b.name, None, [], "", b.fields)
  }

  function PutBack(p: PageState, b: Record): PageState {
    PageState(p.id, p.name, if b.instagram.Some? then RestoredAccount(b.instagram) else p.instagram,
              Replayed(p.accounts, b.accounts),
              if b.accounts == [] then p.accessToken else b.accounts[0].token, p.fields)
  }

  /** One record put back, at the page its id leads to or at `spare`. */
  function Restore<R(==)>(s: Store<R>, b: Record, spare: R): Store<R> {
    var r := if b.id in s.index && s.index[b.id] in s.states then s.index[b.id] else spare;
    var q := PutBack(Base(s, b), b);
    Store(IndexedBy(s.index, b.id, r, q), s.states[r := q])
  }

  function RestoreAll<R(==)>(s: Store<R>, data: seq<Record>, spare: seq<R>): Store<R>
    requires |spare| == |data|
  {
    if data == [] then s
    else Restore(RestoreAll(s, DropLast(data), DropLast(spare)), data[|data| - 1], spare[|data| - 1])
  }

  /** The record gives an indexed page another Instagram account than the one it is indexed by. */
  predicate Orphans<R(==)>(s: Store<R>, b: Record) {
    && b.id in s.index && s.index[b.id] in s.states && b.instagram.Some?
    && var p := s.At(b.id);
       && p.Igsid() != "" && p.Igsid() != p.id && p.Igsid() != IdOf(b.instagram)
       && p.Igsid() in s.index && s.index[p.Igsid()] == s.index[b.id]
  }

  /** Putting a record back keeps every key its page's id or Instagram id exactly when it replaces no indexed account. */
  lemma RestoreKeeps<R>(s: Store<R>, b: Record, spare: R)
    requires s.Keyed() && s.Active() && (b.id !in s.index ==> spare !in s.states)
    ensures Restore(s, b, spare).Active()
    ensures Restore(s, b, spare).Keyed() <==> !Orphans(s, b)
  {
    var z := Restore(s, b, spare);
    if b.id in s.index {
      ReplayedFirst(s.At(b.id).accounts, b.accounts);
    } else {
      ReplayedFirst([], b.accounts);
    }
    if Orphans(s, b) {
      var was := s.At(b.id).Igsid();
      assert was in z.index && z.index[was] == s.index[b.id];
      assert !KeyOf(was, z.states[z.index[was]]);
    } else {
      forall k | k in z.index ensures z.index[k] in z.states && KeyOf(k, z.states[z.index[k]]) {
        if k in s.index {
          assert KeyOf(k, s.states[s.index[k]]);
        }
      }
    }
  }

  lemma ReplayedFirst(a: seq<Grant>, saved: seq<Grant>)
    ensures ActiveToken(Replayed(a, saved)) == if saved == [] then ActiveToken(a) else saved[0].token
  {
  }

  /** Every new page is put at a reference not in use. */
  ghost predicate FreshRefs<R>(s: Store<R>, data: seq<Record>, spare: seq<R>)
    requires |spare| == |data|
  {
    data != [] ==>
      var z := RestoreAll(s, DropLast(data), DropLast(spare));
      FreshRefs(s, DropLast(data), DropLast(spare)) &&
      (data[|data| - 1].id !in z.index ==> spare[|data| - 1] !in z.states)
  }

  /** A record whose ids are told apart and whose grants are pairwise unequal. */
  ghost predicate Fine(b: Record, ids: set<string>) {
    b.id in ids && IdOf(b.instagram) !in ids && Unequal(b.accounts)
  }

  /** The records are of one page, by its id or by its account. */
  predicate SamePage(b: Record, c: Record) {
    b.id == c.id || (IdOf(b.instagram) != "" && IdOf(b.instagram) == IdOf(c.instagram))
  }

  /** Every page id has one record, and so has every Instagram account. */
  ghost predicate Consistent(data: set<Record>, ids: set<string>) {
    && (forall b :: b in data ==> Fine(b, ids))
    && (forall b, c :: b in data && c in data && SamePage(b, c) ==> b == c)
  }

  ghost function RecordsOf(data: seq<Record>): set<Record> {
    set b | b in data
  }

  /** The page of a record is there, under its id and its Instagram id. */
  ghost predicate Present<R>(z: Store<R>, b: Record) {
    && b.id in z.index && z.index[b.id] in z.states && z.At(b.id) == RestoredState(b)
    && (IdOf(b.instagram) != "" ==> IdOf(b.instagram) in z.index && z.index[IdOf(b.instagram)] == z.index[b.id])
  }

  ghost predicate From(k: string, b: Record) {
    k == b.id || (k != "" && k == IdOf(b.instagram))
  }

  ghost predicate Rebuilt<R>(z: Store<R>, data: set<Record>) {
    forall b :: b in data ==> Present(z, b)
  }

  ghost predicate Source(k: string, data: set<Record>) {
    exists b :: b in data && From(k, b)
  }

  /** No key and no Instagram account but those of the records. */
  ghost predicate Closed<R>(z: Store<R>, data: set<Record>) {
    && (forall k :: k in z.index ==> Source(k, data))
    && (forall r :: r in z.states && z.states[r].Igsid() != "" ==> Source(z.states[r].Igsid(), data))
  }

  lemma SourceGrows(k: string, data: set<Record>, b: Record)
    requires Source(k, data) || From(k, b)
    ensures Source(k, data + {b})
  {
    if From(k, b) {
      assert b in data + {b};
    } else {
      var c :| c in data && From(k, c);
      assert c in data + {b};
    }
  }

  lemma {:induction false} RestoreIsClosed<R>(data: seq<Record>, spare: seq<R>)
    requires |spare| == |data|
    ensures Closed(RestoreAll(Store(map[], map[]), data, spare), RecordsOf(data))
  {
    if data != [] {
      var data', b := DropLast(data), data[|data| - 1];
      var z, z' := RestoreAll(Store(map[], map[]), data', DropLast(spare)), RestoreAll(Store(map[], map[]), data, spare);
      RestoreIsClosed(data', DropLast(spare));
      RecordsSplit(data);
      forall k | k in z'.index ensures Source(k, RecordsOf(data)) {
        SourceGrows(k, RecordsOf(data'), b);
      }
      forall r | r in z'.states && z'.states[r].Igsid() != "" ensures Source(z'.states[r].Igsid(), RecordsOf(data)) {
        SourceGrows(z'.states[r].Igsid(), RecordsOf(data'), b);
      }
    }
  }

  lemma NewIdIsFree<R>(data: seq<Record>, spare: seq<R>, ids: set<string>, b: Record)
    requires |spare| == |data| && Consistent(RecordsOf(data) + {b}, ids) && b !in data
    ensures b.id !in RestoreAll(Store(map[], map[]), data, spare).index
  {
    RestoreIsClosed(data, spare);
    if Source(b.id, RecordsOf(data)) {
      var c :| c in RecordsOf(data) && From(b.id, c);
      OnlyItself(RecordsOf(data) + {b}, ids, b, c);
    }
  }

  lemma OnlyItself(data: set<Record>, ids: set<string>, b: Record, c: Record)
    requires Consistent(data, ids) && b in data && c in data && From(b.id, c)
    ensures b == c
  {
    assert Fine(b, ids) && Fine(c, ids);
  }

  /** A record replayed on the page it came from changes nothing. */
  lemma RestoreAgain<R>(z: Store<R>, b: Record, spare: R)
    requires Present(z, b) && Unequal(b.accounts)
    ensures Restore(z, b, spare) == z
  {
    ReplayAgain(b.accounts);
  }

  /** A record put at a new page: that page is added, and nothing but its keys changes. */
  ghost predicate Put<R>(z: Store<R>, b: Record, r: R, z': Store<R>) {
    && Present(z', b) && z'.states == z.states[r := RestoredState(b)]
    && (forall k :: k in z.index && !From(k, b) ==> k in z'.index && z'.index[k] == z.index[k])
    && (forall k :: k in z'.index ==> k in z.index || From(k, b))
  }

  lemma RestoreNew<R>(z: Store<R>, b: Record, spare: R)
    requires Unequal(b.accounts) && b.id !in z.index && IdOf(b.instagram) != b.id
    ensures Put(z, b, spare, Restore(z, b, spare))
  {
    PutOnNew(b);
  }

  lemma PutOnNew(b: Record)
    requires Unequal(b.accounts)
    ensures PutBack(PageState(b.id, b.name, None, [], "", b.fields), b) == RestoredState(b)
  {
    ReplayUnequal(b.accounts);
  }

  lemma StillPresent<R>(z: Store<R>, ids: set<string>, c: Record, b: Record, r: R, z': Store<R>)
    requires Fine(b, ids) && Fine(c, ids) && !SamePage(b, c)
    requires Present(z, c) && r !in z.states && Put(z, b, r, z')
    ensures Present(z', c)
  {
    assert !From(c.id, b);
    if IdOf(c.instagram) != "" {
      assert !From(IdOf(c.instagram), b);
    }
  }

  lemma PutRebuilds<R>(z: Store<R>, data: set<Record>, ids: set<string>, b: Record, r: R,
        z': Store<R>)
    requires Rebuilt(z, data) && r !in z.states && Consistent(data + {b}, ids) && b !in data && Put(z, b, r, z')
    ensures Rebuilt(z', data + {b})
  {
    forall c | c in data ensures Present(z', c) {
      assert c in data + {b} && b in data + {b} && Present(z, c);
      StillPresent(z, ids, c, b, r, z');
    }
  }

  lemma RecordsSplit(data: seq<Record>)
    requires data != []
    ensures RecordsOf(data) == RecordsOf(DropLast(data)) + {data[|data| - 1]}
  {
    LastSplits(data);
  }

  /** Replaying a consistent data set into an empty store rebuilds its pages. */
  lemma {:induction false} RestoreRebuilds<R>(data: seq<Record>, spare: seq<R>,
        ids: set<string>)
    requires Consistent(RecordsOf(data), ids) && |spare| == |data| && FreshRefs(Store(map[], map[]), data, spare)
    ensures Rebuilt(RestoreAll(Store(map[], map[]), data, spare), RecordsOf(data))
  {
    if data != [] {
      var data', spare', b, r := DropLast(data), DropLast(spare), data[|data| - 1], spare[|data| - 1];
      var z := RestoreAll(Store(map[], map[]), data', spare');
      RecordsSplit(data);
      RestoreRebuilds(data', spare', ids);
      assert Fine(b, ids);
      if b in data' {
        assert b in RecordsOf(data') && RecordsOf(data) == RecordsOf(data');
        RestoreAgain(z, b, r);
      } else {
        NewIdIsFree(data', spare', ids, b);
        RestoreNew(z, b, r);
        PutRebuilds(z, RecordsOf(data'), ids, b, r, Restore(z, b, r));
      }
    }
  }

  // ----- saving, then restoring

  /** The authorized pages of the index. */
  ghost predicate Saved<R>(s: Store<R>, k: string) {
    k in s.index && s.index[k] in s.states && s.At(k).Authorized?()
  }

  lemma {:induction false} SavedRecords<R>(s: Store<R>, order: seq<string>, b: Record)
    ensures b in SaveAll(s, order) <==> exists k :: k in order && Saved(s, k) && b == RecordOf(s.At(k))
  {
    if order != [] {
      var last := order[|order| - 1];
      LastSplits(order);
      SavedRecords(s, DropLast(order), b);
    }
  }

  /**
   What the backup relies on: ids told apart, sound grants, and that pages saved under
   one id, or one account, are alike. Pages need not be indexed by their own ids.
   */
  ghost predicate Restorable<R>(owner: string -> string, s: Store<R>, ids: set<string>) {
    && s.Keyed() && s.Active() && Apart(s, [], ids) && SoundGrants(owner, s)
    && forall k, o :: Saved(s, k) && Saved(s, o) && SamePage(RecordOf(s.At(k)), RecordOf(s.At(o))) ==>
         RecordOf(s.At(k)) == RecordOf(s.At(o))
  }

  /** A store in which every page is indexed by its own id, and by its account, can be saved and restored. */
  lemma CoherentIsRestorable<R>(owner: string -> string, s: Store<R>, ids: set<string>)
    requires s.Keyed() && s.Active() && Apart(s, [], ids) && SoundGrants(owner, s) && Coherent(s) && AllIndexed(s)
    ensures Restorable(owner, s, ids)
  {
    forall k, o | Saved(s, k) && Saved(s, o) && SamePage(RecordOf(s.At(k)), RecordOf(s.At(o)))
      ensures RecordOf(s.At(k)) == RecordOf(s.At(o))
    {
      var m, n := s.At(k).id, s.At(o).id;
      assert IsPage(s, m) && IsPage(s, n);
      assert s.At(m).Igsid() != "" ==> Indexed(s, m);
      assert s.At(n).Igsid() != "" ==> Indexed(s, n);
    }
  }

  /** Also after keys are removed, whatever pages that leaves under other keys. */
  lemma DeletedIsRestorable<R>(owner: string -> string, s: Store<R>, ids: set<string>, keys: set<string>)
    requires Restorable(owner, s, ids)
    ensures Restorable(owner, Store(s.index - keys, s.states), ids)
  {
    var z := Store(s.index - keys, s.states);
    assert forall k :: Saved(z, k) ==> Saved(s, k) && z.At(k) == s.At(k);
  }

  lemma SavedIsConsistent<R>(owner: string -> string, s: Store<R>, order: seq<string>,
        ids: set<string>)
    requires Restorable(owner, s, ids)
    ensures Consistent(RecordsOf(SaveAll(s, order)), ids)
  {
    var data := SaveAll(s, order);
    forall b | b in data ensures Fine(b, ids) {
      SavedRecords(s, order, b);
      var k :| k in order && Saved(s, k) && b == RecordOf(s.At(k));
      SoundIsUnequal(owner, s.At(k).accounts);
    }
    forall b, c | b in data && c in data && SamePage(b, c) ensures b == c {
      SavedRecords(s, order, b);
      SavedRecords(s, order, c);
      var k :| k in order && Saved(s, k) && b == RecordOf(s.At(k));
      var o :| o in order && Saved(s, o) && c == RecordOf(s.At(o));
    }
  }

  /** A page as it was, but for the picture of its Instagram account, and indexed by that account. */
  ghost predicate Recovered<S>(z: Store<S>, p: PageState) {
    && p.id in z.index && z.index[p.id] in z.states
    && z.At(p.id) == p.(instagram := RestoredAccount(p.instagram))
    && (p.Igsid() != "" ==> Indexed(z, p.id))
  }

  lemma SavedIsRecovered<R, S>(s: Store<R>, order: seq<string>, z: Store<S>, k: string)
    requires s.Active() && k in order && Saved(s, k) && Rebuilt(z, RecordsOf(SaveAll(s, order)))
    ensures Recovered(z, s.At(k))
  {
    SavedRecords(s, order, RecordOf(s.At(k)));
    assert RecordOf(s.At(k)) in RecordsOf(SaveAll(s, order));
    assert Present(z, RecordOf(s.At(k)));
  }

  ghost predicate KeyIsSaved<R>(s: Store<R>, k: string) {
    exists k2 :: Saved(s, k2) && KeyOf(k, s.At(k2))
  }

  lemma SourceIsSaved<R>(s: Store<R>, order: seq<string>, k: string)
    requires Source(k, RecordsOf(SaveAll(s, order)))
    ensures KeyIsSaved(s, k)
  {
    var b :| b in RecordsOf(SaveAll(s, order)) && From(k, b);
    SavedRecords(s, order, b);
    var k2 :| k2 in order && Saved(s, k2) && b == RecordOf(s.At(k2));
    assert KeyOf(k, s.At(k2));
  }

  /** `z` has every authorized page of `s`, and no key of any other page. */
  ghost predicate Reproduces<R, S>(z: Store<S>, s: Store<R>) {
    && (forall k :: Saved(s, k) ==> Recovered(z, s.At(k)))
    && (forall k :: k in z.index ==> KeyIsSaved(s, k))
  }

  /**
   Saved and put back into an empty store, in any order and however often a page
   occurs, every authorized page is there again: the same id, the same grants in the
   same order, the same token in use, indexed by its Instagram account; and nothing else.
   */
  lemma BackupRestores<R, S>(owner: string -> string, s: Store<R>, order: seq<string>, data: seq<Record>, spare: seq<S>,
                             ids: set<string>)
    requires Restorable(owner, s, ids)
    requires (forall k :: k in s.index ==> k in order) && data == SaveAll(s, order)
    requires |spare| == |data| && FreshRefs(Store(map[], map[]), data, spare)
    ensures Reproduces(RestoreAll(Store(map[], map[]), data, spare), s)
  {
    var z := RestoreAll(Store(map[], map[]), data, spare);
    SavedIsConsistent(owner, s, order, ids);
    forall k | Saved(s, k) ensures Recovered(z, s.At(k)) {
      RestoreRebuilds(data, spare, ids);
      SavedIsRecovered(s, order, z, k);
    }
    forall k | k in z.index ensures KeyIsSaved(s, k) {
      RestoreIsClosed(data, spare);
      SourceIsSaved(s, order, k);
    }
  }
}
