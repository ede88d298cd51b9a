/** What the relay client is handed over whole runs: which items, when, and in which order (aeon-sync/src/relay.rs). */
module RelayDelivery {
  import opened Words
  import opened Ordered
  import opened Relay

  // ----- what one tick hands over -----

  function Ids(items: seq<RelayItem>): (r: seq<string>)
    ensures |r| == |items|
  {
    seq(|items|, k requires 0 <= k < |items| => items[k].id)
  }

  /** The items other devices sent. */
  function Foreign(device: string, items: seq<RelayItem>): seq<RelayItem>
    decreases |items|
  {
    if items == [] then []
    else (if items[0].fromDevice == device then [] else [items[0]]) + Foreign(device, items[1..])
  }

  lemma {:induction false} ForeignAscends(device: string, items: seq<RelayItem>)
    requires Ascending(Ids(items))
    ensures Ascending(Ids(Foreign(device, items)))
    ensures forall x :: x in Foreign(device, items) <==> x in items && x.fromDevice != device
    decreases |items|
  {
    hide StringLess, PlainId;
    if items != [] {
      var rest := Foreign(device, items[1..]);
      assert items == [items[0]] + items[1..];
      assert Ids(items[1..]) == Ids(items)[1..];
      ForeignAscends(device, items[1..]);
      if items[0].fromDevice == device {
        assert Foreign(device, items) == rest;
      } else {
        forall k | 0 <= k < |rest| ensures StringLess(items[0].id, rest[k].id) {
          assert rest[k] in rest && rest[k] in items[1..];
          var j :| 0 <= j < |items| - 1 && items[1..][j] == rest[k];
          assert Ids(items)[0] == items[0].id && Ids(items)[j + 1] == rest[k].id;
        }
        FrontAscends(items[0], rest);
      }
    }
  }

  lemma FrontAscends(x: RelayItem, rest: seq<RelayItem>)
    requires Ascending(Ids(rest)) && forall k :: 0 <= k < |rest| ==> StringLess(x.id, rest[k].id)
    ensures Ascending(Ids([x] + rest))
  {
    hide StringLess, PlainId;
    assert Ids([x] + rest) == [x.id] + Ids(rest);
  }

  lemma ConsumeStep(device: string, items: seq<RelayItem>, ok: RelayItem -> bool, imported: seq<RelayItem>)
    requires items != []
    ensures Foreign(device, items) == (if items[0].fromDevice == device then [] else [items[0]]) + Foreign(device, items[1..])
    ensures Consume(device, items, ok, imported)
            == if items[0].fromDevice == device then Consume(device, items[1..], ok, imported)
               else if !ok(items[0]) then (imported, false)
               else Consume(device, items[1..], ok, imported + [items[0]])
  {
  }

  /** `after` is `imported` and a front of `all` whose imports succeed; the whole of it if `done`, else up to one that fails. */
  ghost predicate HandedOver(after: seq<RelayItem>, done: bool, imported: seq<RelayItem>, all: seq<RelayItem>, ok: RelayItem -> bool) {
    && imported <= after && after[|imported|..] <= all
    && (forall x :: x in after[|imported|..] ==> ok(x))
    && (done ==> after[|imported|..] == all)
    && (!done ==> |after| - |imported| < |all| && !ok(all[|after| - |imported|]))
  }

  lemma HandedOneMore(after: seq<RelayItem>, done: bool, imported: seq<RelayItem>, x: RelayItem, all: seq<RelayItem>, ok: RelayItem -> bool)
    requires HandedOver(after, done, imported + [x], all, ok) && ok(x)
    ensures HandedOver(after, done, imported, [x] + all, ok)
  {
    var rest := after[|imported| + 1..];
    assert after == imported + [x] + rest;
    assert after[|imported|..] == [x] + rest;
  }

  /** A page is handed over from its front: all of its foreign items, or those before the first import that fails. */
  lemma {:induction false} ConsumeHandsOver(device: string, items: seq<RelayItem>, ok: RelayItem -> bool, imported: seq<RelayItem>)
    ensures var (after, done) := Consume(device, items, ok, imported);
            HandedOver(after, done, imported, Foreign(device, items), ok)
    decreases |items|
  {
    if items != [] {
      hide Consume, Foreign, HandedOver;
      ConsumeStep(device, items, ok, imported);
      var rest := Foreign(device, items[1..]);
      if items[0].fromDevice == device {
        assert [] + rest == rest;
        ConsumeHandsOver(device, items[1..], ok, imported);
      } else if ok(items[0]) {
        ConsumeHandsOver(device, items[1..], ok, imported + [items[0]]);
        var (after, done) := Consume(device, items[1..], ok, imported + [items[0]]);
        HandedOneMore(after, done, imported, items[0], rest, ok);
      } else {
        HandedNone(imported, items[0], rest, ok);
      }
    }
  }

  lemma HandedNone(imported: seq<RelayItem>, x: RelayItem, rest: seq<RelayItem>, ok: RelayItem -> bool)
    requires !ok(x)
    ensures HandedOver(imported, false, imported, [x] + rest, ok)
  {
  }

  /** A page is finished exactly when all its foreign items can be imported. */
  lemma FinishesExactly(device: string, items: seq<RelayItem>, ok: RelayItem -> bool, imported: seq<RelayItem>)
    ensures Consume(device, items, ok, imported).1 <==> forall x :: x in Foreign(device, items) ==> ok(x)
    ensures Consume(device, items, ok, imported).1 ==> Consume(device, items, ok, imported).0 == imported + Foreign(device, items)
  {
    hide Consume, Foreign;
    ConsumeHandsOver(device, items, ok, imported);
    var (after, done) := Consume(device, items, ok, imported);
    var all := Foreign(device, items);
    if done {
      assert after == imported + all;
    } else {
      assert all[|after| - |imported|] in all;
    }
  }

  lemma PageAscends(store: Store, cursor: Option<string>, limit: nat)
    ensures Ascending(Ids(Page(store, cursor, limit)))
    ensures forall x :: x in Page(store, cursor, limit) ==> x.id in store && store[x.id] == x && Past(cursor, x.id)
  {
    hide StringLess, InOrder;
    PageIdsStored(store, cursor, limit);
    assert Ids(Page(store, cursor, limit)) == PageIds(store, cursor, limit);
    forall x | x in Page(store, cursor, limit) ensures x.id in store && store[x.id] == x && Past(cursor, x.id) {
      var k :| 0 <= k < |Page(store, cursor, limit)| && Page(store, cursor, limit)[k] == x;
      assert PageIds(store, cursor, limit)[k] in Remaining(store, cursor);
    }
  }

  /** Every tick, one with a failing import included, hands over only stored items of other devices that lie past the cursor,
      in strictly ascending id order. */
  lemma TickHandsOver(device: string, w: World, o: Outside)
    ensures var before, after := w.client.imported, Step(device, w, Tick(o)).client.imported;
            && before <= after
            && Ascending(Ids(after[|before|..]))
            && forall x :: x in after[|before|..] ==>
                 && x.id in w.store && w.store[x.id] == x && x.fromDevice != device
                 && Past(w.client.cursor, x.id) && x in Page(w.store, w.client.cursor, o.limit)
  {
    hide StringLess, InOrder, Page, Consume, Foreign, Past;
    var before, after := w.client.imported, Step(device, w, Tick(o)).client.imported;
    if o.reachable {
      var items := Page(w.store, w.client.cursor, o.limit);
      var all, new1 := Foreign(device, items), after[|before|..];
      PageAscends(w.store, w.client.cursor, o.limit);
      ForeignAscends(device, items);
      ConsumeHandsOver(device, items, o.ok, before);
      assert forall k :: 0 <= k < |new1| ==> new1[k] == all[k] && Ids(new1)[k] == Ids(all)[k];
      assert forall x :: x in new1 ==> x in all;
    } else {
      assert after[|before|..] == [];
    }
  }

  /** One tick in full. Without an answer nothing changes. If all foreign items of the page import, they are handed over, the
      cursor becomes the last id of the page, and it is saved if the file can be written. If one fails, those before it are handed
      over and both cursors stay. */
  lemma TickMeans(device: string, w: World, o: Outside, n: nat)
    requires var all := Foreign(device, Page(w.store, w.client.cursor, o.limit));
             n <= |all| && (forall k :: 0 <= k < n ==> o.ok(all[k])) && (n < |all| ==> !o.ok(all[n]))
    ensures var page := Page(w.store, w.client.cursor, o.limit);
            var all := Foreign(device, page);
            Step(device, w, Tick(o)) == World(w.store,
              if !o.reachable then w.client
              else if n < |all| || page == [] then Client(w.client.cursor, w.client.saved, w.client.imported + all[..n])
              else Client(Some(page[|page| - 1].id), if o.writable then Some(page[|page| - 1].id) else w.client.saved,
                          w.client.imported + all))
  {
    hide Consume, Foreign, Page;
    var page := Page(w.store, w.client.cursor, o.limit);
    var all := Foreign(device, page);
    var (after, done) := Consume(device, page, o.ok, w.client.imported);
    ConsumeHandsOver(device, page, o.ok, w.client.imported);
    FinishesExactly(device, page, o.ok, w.client.imported);
    HandedExactly(after, done, w.client.imported, all, o.ok, n);
    if page != [] { LastIsNew(w.store, w.client.cursor, o.limit); }
    if page == [] { assert all == [] by { NoForeign(device); } }
  }

  lemma NoForeign(device: string)
    ensures Foreign(device, []) == []
  {
  }

  lemma HandedExactly(after: seq<RelayItem>, done: bool, imported: seq<RelayItem>, all: seq<RelayItem>, ok: RelayItem -> bool, n: nat)
    requires HandedOver(after, done, imported, all, ok)
    requires n <= |all| && (forall k :: 0 <= k < n ==> ok(all[k])) && (n < |all| ==> !ok(all[n]))
    ensures after == imported + all[..n] && (done <==> n == |all|)
  {
    var h := after[|imported|..];
    assert after == imported + h;
    assert forall k :: 0 <= k < |h| ==> h[k] == all[k] && h[k] in h;
    assert |h| == n;
    assert h == all[..n];
  }

  lemma LastIsNew(store: Store, cursor: Option<ItemId>, limit: nat)
    requires Page(store, cursor, limit) != []
    ensures Some(Page(store, cursor, limit)[|Page(store, cursor, limit)| - 1].id) != cursor
  {
    hide StringLess, InOrder, Page;
    PageAscends(store, cursor, limit);
    var page := Page(store, cursor, limit);
    var last := page[|page| - 1];
    assert last in page;
    StringLessTotal(last.id, last.id);
  }

  /** A page that reaches `x` holds every stored item between the cursor and `x`. */
  lemma PageReaches(store: Store, cursor: Option<string>, limit: nat, z: string, x: RelayItem)
    requires x in Page(store, cursor, limit) && z in store && Past(cursor, z) && (z == x.id || StringLess(z, x.id))
    ensures store[z] in Page(store, cursor, limit)
  {
    hide StringLess, InOrder, Page;
    PageAscends(store, cursor, limit);
    var items := Page(store, cursor, limit);
    var last := items[|items| - 1].id;
    if z != x.id {
      PageIsNext(store, cursor, limit, x.id);
      PageIsNext(store, cursor, limit, z);
      if StringLess(last, z) { StringLessTransitive(last, z, x.id); }
    }
  }

  /** What a pull returns: stored items strictly past the cursor, in strictly ascending id order; every stored item past the
      cursor that is not behind the whole page is on it; and of those past the cursor as many as the limit says, at least one and
      at most 200. */
  lemma PageMeans(store: Store, cursor: Option<string>, limit: nat)
    ensures var page := Page(store, cursor, limit);
            && Ascending(Ids(page))
            && (forall x :: x in page ==> x.id in store && store[x.id] == x && (cursor.None? || StringLess(cursor.value, x.id)))
            && (forall z, x :: z in store && (cursor.None? || StringLess(cursor.value, z)) && x in page && StringLess(z, x.id) ==>
                                 store[z] in page)
            && |page| == PageSize(|Remaining(store, cursor)|, limit)
    ensures forall id :: id in Remaining(store, cursor) <==> id in store && (cursor.None? || StringLess(cursor.value, id))
  {
    hide StringLess, InOrder, Page;
    var page := Page(store, cursor, limit);
    PageAscends(store, cursor, limit);
    forall z, x | z in store && (cursor.None? || StringLess(cursor.value, z)) && x in page && StringLess(z, x.id)
      ensures store[z] in page
    {
      PageReaches(store, cursor, limit, z, x);
    }
    PageLength(store, cursor, limit);
  }

  function PageSize(available: nat, limit: nat): nat {
    var most := if limit == 0 then 1 else if limit > 200 then 200 else limit;
    if available < most then available else most
  }

  lemma PageLength(store: Store, cursor: Option<string>, limit: nat)
    ensures |Page(store, cursor, limit)| == PageSize(|Remaining(store, cursor)|, limit)
  {
    hide StringLess, Remaining;
    PageIdsStored(store, cursor, limit);
  }

  /** Handing over a whole page leaves fewer items to hand over. */
  lemma RemainingShrinks(store: Store, cursor: Option<string>, limit: nat)
    requires Page(store, cursor, limit) != []
    ensures var items := Page(store, cursor, limit);
            Remaining(store, Some(items[|items| - 1].id)) < Remaining(store, cursor)
  {
    hide StringLess, InOrder, Page;
    var items := Page(store, cursor, limit);
    var next := Some(items[|items| - 1].id);
    PageAscends(store, cursor, limit);
    forall id | id in store ensures !Past(next, id) <==> !Past(cursor, id) || store[id] in items {
      PageIsNext(store, cursor, limit, id);
    }
    var first := items[0];
    assert first in items;
    assert first.id in Remaining(store, cursor) && first.id !in Remaining(store, next);
  }

  lemma {:induction false} ImportedGrows(device: string, w: World, run: seq<Event>)
    ensures w.client.imported <= After(device, w, run).client.imported
    decreases |run|
  {
    hide Page;
    if run != [] { ImportedGrows(device, Step(device, w, run[0]), run[1..]); }
  }

  // ----- what lies behind the cursor stays behind it -----

  /** No tick of the run is handed `id`. */
  ghost predicate NeverPaged(device: string, w: World, run: seq<Event>, id: string)
    decreases |run|
  {
    run == [] ||
    ((run[0].Tick? ==> forall x :: x in Page(w.store, w.client.cursor, run[0].o.limit) ==> x.id != id)
     && NeverPaged(device, Step(device, w, run[0]), run[1..], id))
  }

  /** In every run an id behind the cursor is never handed over again and stays behind, as long as the process does not start
      again from a saved cursor ahead of which the id lies. */
  lemma {:induction false} BehindIsNeverPaged(device: string, w: World, run: seq<Event>, id: string)
    requires !Past(w.client.cursor, id)
    requires !Past(w.client.saved, id) || forall k :: 0 <= k < |run| ==> !run[k].Restart?
    ensures NeverPaged(device, w, run, id) && !Past(After(device, w, run).client.cursor, id)
    ensures w.client.imported <= After(device, w, run).client.imported
    ensures forall x :: x in After(device, w, run).client.imported[|w.client.imported|..] ==> x.id != id
    decreases |run|
  {
    hide Past, PullOnce;
    if run != [] {
      var next := Step(device, w, run[0]);
      if run[0].Tick? {
        CursorAdvances(device, w.store, run[0].o, w.client, id);
        SavedOrCursor(device, w.store, run[0].o, w.client);
        TickHandsOver(device, w, run[0].o);
      }
      assert forall k :: 0 <= k < |run| - 1 ==> run[1..][k] == run[k + 1];
      BehindIsNeverPaged(device, next, run[1..], id);
      var new1 := next.client.imported[|w.client.imported|..];
      var end := After(device, w, run).client.imported;
      assert next.client.imported == w.client.imported + new1;
      assert end[|w.client.imported|..] == new1 + end[|next.client.imported|..];
    }
  }

  /** Another device captures early and uploads late: its item is behind the cursor when it arrives, and no run whatever
      hands it over. */
  lemma LatePushIsLost(run: seq<Event>)
    ensures var w := World(map[], Client(Some("5"), Some("5"), []));
            var item := RelayItem("1", "other", "");
            && NothingMissed("me", w) && SavedBehind(w.client) && !PushSafe("me", w, Push(item))
            && !NothingMissed("me", Step("me", w, Push(item)))
            && NeverPaged("me", Step("me", w, Push(item)), run, "1")
            && item !in After("me", Step("me", w, Push(item)), run).client.imported
  {
    var w := World(map[], Client(Some("5"), Some("5"), []));
    var item := RelayItem("1", "other", "");
    var late := Step("me", w, Push(item));
    assert !StringLess("5", "1");
    StepMissesNothing("me", w, Push(item));
    BehindIsNeverPaged("me", late, run, "1");
    var end := After("me", late, run).client.imported;
    assert end[0..] == end;
  }

  // ----- what is handed over in the end -----

  /** A tick the relay answers. */
  predicate Answers(e: Event) { e.Tick? && e.o.reachable }

  predicate IsForeign(device: string, store: Store, id: string) { id in store && store[id].fromDevice != device }

  /** No item of another device from the cursor up to `id` fails to import. */
  ghost predicate Clear(device: string, w: World, ok: RelayItem -> bool, id: string) {
    forall z :: IsForeign(device, w.store, z) && Past(w.client.cursor, z) && (z == id || StringLess(z, id)) ==> ok(w.store[z])
  }

  lemma SubsetSize(a: set<string>, b: set<string>)
    requires a <= b
    ensures |a| <= |b| && (a < b ==> |a| < |b|)
  {
    assert b == a + (b - a);
    assert a < b ==> b - a != {};
  }

  lemma TickEta(device: string, w: World, e: Event)
    requires e.Tick?
    ensures Step(device, w, e) == Step(device, w, Tick(e.o)) && Step(device, w, e).store == w.store
  {
  }

  /** With the way clear, a tick hands the item over or gets nearer to it. */
  lemma ClearTick(device: string, w: World, o: Outside, id: string)
    requires o.reachable && IsForeign(device, w.store, id) && Past(w.client.cursor, id) && Clear(device, w, o.ok, id)
    ensures var next := Step(device, w, Tick(o));
            || w.store[id] in next.client.imported
            || (Past(next.client.cursor, id) && Remaining(w.store, next.client.cursor) < Remaining(w.store, w.client.cursor))
  {
    hide StringLess, InOrder, Page, Consume, Foreign, Past;
    var items := Page(w.store, w.client.cursor, o.limit);
    var all := Foreign(device, items);
    var (after, done) := Consume(device, items, o.ok, w.client.imported);
    PageAscends(w.store, w.client.cursor, o.limit);
    ForeignAscends(device, items);
    ConsumeHandsOver(device, items, o.ok, w.client.imported);
    if w.store[id] in items {
      ReachedIsHandedOver(device, w, o, id, after, done, all);
    } else {
      forall x | x in items ensures StringLess(x.id, id) {
        StringLessTotal(x.id, id);
        if x.id == id || StringLess(id, x.id) { PageReaches(w.store, w.client.cursor, o.limit, id, x); }
      }
      forall x | x in all ensures o.ok(x) {
        assert StringLess(x.id, id) && IsForeign(device, w.store, x.id) && w.store[x.id] == x;
      }
      FinishesExactly(device, items, o.ok, w.client.imported);
      PageNotEmpty(w.store, w.client.cursor, o.limit, id);
      var last := items[|items| - 1];
      assert last in items;
      RemainingShrinks(w.store, w.client.cursor, o.limit);
      AheadIsPast(last.id, id);
    }
  }

  lemma PageNotEmpty(store: Store, cursor: Option<string>, limit: nat, id: string)
    requires id in store && Past(cursor, id)
    ensures Page(store, cursor, limit) != []
  {
    hide StringLess, InOrder;
    PageIdsStored(store, cursor, limit);
    assert id in Remaining(store, cursor);
  }

  lemma AheadIsPast(cursor: string, id: string)
    ensures Past(Some(cursor), id) <==> StringLess(cursor, id)
  {
  }

  lemma ReachedIsHandedOver(device: string, w: World, o: Outside, id: string, after: seq<RelayItem>, done: bool, all: seq<RelayItem>)
    requires IsForeign(device, w.store, id) && Past(w.client.cursor, id) && Clear(device, w, o.ok, id)
    requires HandedOver(after, done, w.client.imported, all, o.ok) && Ascending(Ids(all)) && w.store[id] in all
    requires forall x :: x in all ==> IsForeign(device, w.store, x.id) && w.store[x.id] == x && Past(w.client.cursor, x.id)
    ensures w.store[id] in after
  {
    hide StringLess, Past, PlainId;
    var m :| 0 <= m < |all| && all[m] == w.store[id];
    forall k | 0 <= k <= m ensures o.ok(all[k]) {
      assert all[k] in all && Ids(all)[k] == all[k].id && Ids(all)[m] == all[m].id;
      assert all[k].id == id || StringLess(all[k].id, id);
    }
    assert after == w.client.imported + after[|w.client.imported|..];
    assert after[|w.client.imported| + m] == all[m];
  }

  /** As many answered ticks as items remain hand over every item the way to which is clear in each of them, whatever
      the limits and whatever fails behind it. */
  lemma {:induction false} DeliveredWhenClear(device: string, w: World, run: seq<Event>, id: string)
    requires IsForeign(device, w.store, id) && Past(w.client.cursor, id)
    requires forall k :: 0 <= k < |run| ==> Answers(run[k]) && Clear(device, w, run[k].o.ok, id)
    requires |run| >= |Remaining(w.store, w.client.cursor)|
    ensures w.store[id] in After(device, w, run).client.imported
    decreases |run|
  {
    hide Step, Past, StringLess;
    assert id in Remaining(w.store, w.client.cursor);
    var next := Step(device, w, run[0]);
    assert Answers(run[0]) && Clear(device, w, run[0].o.ok, id);
    TickEta(device, w, run[0]);
    ClearTick(device, w, run[0].o, id);
    if w.store[id] in next.client.imported {
      ImportedGrows(device, next, run[1..]);
    } else {
      SubsetSize(Remaining(w.store, next.client.cursor), Remaining(w.store, w.client.cursor));
      forall k | 0 <= k < |run| - 1 ensures Answers(run[1..][k]) && Clear(device, next, run[1..][k].o.ok, id) {
        assert Answers(run[k + 1]) && Clear(device, w, run[k + 1].o.ok, id);
        StaysClear(device, w, run[0].o, run[k + 1].o.ok, id);
      }
      DeliveredWhenClear(device, next, run[1..], id);
    }
  }

  lemma StaysClear(device: string, w: World, o: Outside, ok: RelayItem -> bool, id: string)
    requires Clear(device, w, ok, id)
    ensures Clear(device, Step(device, w, Tick(o)), ok, id)
  {
    hide StringLess, Past, PullOnce;
    var next := Step(device, w, Tick(o));
    forall z | Past(next.client.cursor, z) ensures Past(w.client.cursor, z) {
      if !Past(w.client.cursor, z) { CursorAdvances(device, w.store, o, w.client, z); }
    }
  }

  // ----- an item that cannot be imported -----

  /** A tick that cannot import `z` hands over nothing from `z` on and does not pass it. */
  lemma BlockedTick(device: string, w: World, o: Outside, z: string)
    requires IsForeign(device, w.store, z) && Past(w.client.cursor, z) && !o.ok(w.store[z])
    ensures var next := Step(device, w, Tick(o)).client;
            && Past(next.cursor, z) && w.client.imported <= next.imported
            && forall x :: x in next.imported[|w.client.imported|..] ==> StringLess(x.id, z)
  {
    hide StringLess, InOrder, Page, Consume, Foreign, Past;
    var next := Step(device, w, Tick(o)).client;
    if o.reachable {
      var items := Page(w.store, w.client.cursor, o.limit);
      var all := Foreign(device, items);
      PageAscends(w.store, w.client.cursor, o.limit);
      ForeignAscends(device, items);
      ConsumeHandsOver(device, items, o.ok, w.client.imported);
      FinishesExactly(device, items, o.ok, w.client.imported);
      if w.store[z] in items {
        assert w.store[z] in all;
        NothingPastTheBad(all, next.imported[|w.client.imported|..], w.store[z], o.ok);
      } else {
        forall x | x in items ensures StringLess(x.id, z) {
          StringLessTotal(x.id, z);
          if x.id == z || StringLess(z, x.id) { PageReaches(w.store, w.client.cursor, o.limit, z, x); }
        }
        PageNotEmpty(w.store, w.client.cursor, o.limit, z);
        assert items[|items| - 1] in items;
        AheadIsPast(items[|items| - 1].id, z);
        TickHandsOver(device, w, o);
      }
    } else {
      assert next.imported[|w.client.imported|..] == [];
    }
  }

  lemma NothingPastTheBad(all: seq<RelayItem>, front: seq<RelayItem>, bad: RelayItem, ok: RelayItem -> bool)
    requires Ascending(Ids(all)) && front <= all && bad in all && !ok(bad) && forall x :: x in front ==> ok(x)
    ensures forall x :: x in front ==> StringLess(x.id, bad.id)
  {
    hide StringLess, PlainId;
    var m :| 0 <= m < |all| && all[m] == bad;
    forall k | 0 <= k < |front| ensures all[k] != bad {
      assert front[k] in front;
    }
    assert |front| <= m;
    forall x | x in front ensures StringLess(x.id, bad.id) {
      var k :| 0 <= k < |front| && front[k] == x;
      assert Ids(all)[k] == x.id && Ids(all)[m] == bad.id;
    }
  }

  /** One item that never imports and is never replaced stops everything from it on, in every run of ticks, pushes and
      restarts: nothing at or behind it in id order is handed over any more, and the cursor stays in front of it. */
  lemma {:induction false} BadItemBlocks(device: string, w: World, run: seq<Event>, z: string)
    requires IsForeign(device, w.store, z) && Past(w.client.cursor, z)
    requires Past(w.client.saved, z) || forall k :: 0 <= k < |run| ==> !run[k].Restart?
    requires forall k :: 0 <= k < |run| && run[k].Tick? ==> !run[k].o.ok(w.store[z])
    requires forall k :: 0 <= k < |run| && run[k].Push? ==> run[k].item.id != z
    ensures w.client.imported <= After(device, w, run).client.imported
    ensures forall x :: x in After(device, w, run).client.imported[|w.client.imported|..] ==> StringLess(x.id, z)
    ensures Past(After(device, w, run).client.cursor, z)
    decreases |run|
  {
    hide Past, PullOnce, StringLess;
    if run != [] {
      var next := Step(device, w, run[0]);
      if run[0].Tick? {
        BlockedTick(device, w, run[0].o, z);
        SavedOrCursor(device, w.store, run[0].o, w.client);
      }
      assert forall k :: 0 <= k < |run| - 1 ==> run[1..][k] == run[k + 1];
      BadItemBlocks(device, next, run[1..], z);
      var new1 := next.client.imported[|w.client.imported|..];
      var end := After(device, w, run).client.imported;
      assert next.client.imported == w.client.imported + new1;
      assert end[|w.client.imported|..] == new1 + end[|next.client.imported|..];
    }
  }

  /** The imports of every tick of the run succeed for exactly the items `ok` says. */
  ghost predicate ImportsAre(run: seq<Event>, ok: RelayItem -> bool) {
    forall k, x :: 0 <= k < |run| && run[k].Tick? ==> run[k].o.ok(x) == ok(x)
  }

  /** As many answered ticks as items remain hand over an item if and only if no item from the cursor up to it fails. */
  lemma DeliveredExactly(device: string, w: World, run: seq<Event>, ok: RelayItem -> bool, id: string)
    requires IsForeign(device, w.store, id) && Past(w.client.cursor, id) && w.store[id] !in w.client.imported
    requires ImportsAre(run, ok) && forall k :: 0 <= k < |run| ==> Answers(run[k])
    requires |run| >= |Remaining(w.store, w.client.cursor)|
    ensures w.store[id] in After(device, w, run).client.imported <==> Clear(device, w, ok, id)
  {
    hide StringLess, Past, After;
    if Clear(device, w, ok, id) {
      forall k | 0 <= k < |run| ensures Clear(device, w, run[k].o.ok, id) {
        assert Answers(run[k]);
        assert forall x :: run[k].o.ok(x) == ok(x);
      }
      DeliveredWhenClear(device, w, run, id);
    } else {
      var z :| IsForeign(device, w.store, z) && Past(w.client.cursor, z) && (z == id || StringLess(z, id)) && !ok(w.store[z]);
      forall k | 0 <= k < |run| ensures run[k].Tick? && !run[k].o.ok(w.store[z]) {
        assert Answers(run[k]);
      }
      BadItemBlocks(device, w, run, z);
      var end := After(device, w, run).client.imported;
      assert end == w.client.imported + end[|w.client.imported|..];
      StringLessTotal(z, id);
    }
  }

  /** Every remaining item of another device can be imported. */
  ghost predicate AllImportable(device: string, w: World, ok: RelayItem -> bool) {
    forall z :: IsForeign(device, w.store, z) && Past(w.client.cursor, z) ==> ok(w.store[z])
  }

  ghost predicate AllHandedOver(device: string, store: Store, c: Client) {
    forall id :: IsForeign(device, store, id) ==> store[id] in c.imported
  }

  /** As many answered ticks as items remain hand over all of them, whatever the limits and whatever happened before, when
      every remaining item can be imported in each of them. */
  lemma TicksDrain(device: string, w: World, run: seq<Event>)
    requires NothingMissed(device, w)
    requires forall k :: 0 <= k < |run| ==> Answers(run[k]) && AllImportable(device, w, run[k].o.ok)
    requires |run| >= |Remaining(w.store, w.client.cursor)|
    ensures AllHandedOver(device, w.store, After(device, w, run).client)
  {
    hide StringLess, Past, After;
    ImportedGrows(device, w, run);
    forall id | IsForeign(device, w.store, id) ensures w.store[id] in After(device, w, run).client.imported {
      if Past(w.client.cursor, id) {
        forall k | 0 <= k < |run| ensures Answers(run[k]) && Clear(device, w, run[k].o.ok, id) {
          assert AllImportable(device, w, run[k].o.ok);
        }
        DeliveredWhenClear(device, w, run, id);
      }
    }
  }

  /** With the same imports failing in every tick, and nothing imported ahead of the cursor, they hand over everything if and
      only if none of the remaining items is one that fails. */
  lemma TicksDrainExactly(device: string, w: World, run: seq<Event>, ok: RelayItem -> bool)
    requires NothingMissed(device, w)
    requires forall id :: IsForeign(device, w.store, id) && Past(w.client.cursor, id) ==> w.store[id] !in w.client.imported
    requires ImportsAre(run, ok) && forall k :: 0 <= k < |run| ==> Answers(run[k])
    requires |run| >= |Remaining(w.store, w.client.cursor)|
    ensures AllHandedOver(device, w.store, After(device, w, run).client) <==> AllImportable(device, w, ok)
  {
    hide StringLess, Past, After;
    if AllImportable(device, w, ok) {
      forall k | 0 <= k < |run| ensures AllImportable(device, w, run[k].o.ok) {
        assert Answers(run[k]);
        assert forall x :: run[k].o.ok(x) == ok(x);
      }
      TicksDrain(device, w, run);
    }
    if AllHandedOver(device, w.store, After(device, w, run).client) {
      forall z | IsForeign(device, w.store, z) && Past(w.client.cursor, z) ensures ok(w.store[z]) {
        DeliveredExactly(device, w, run, ok, z);
      }
    }
  }

  /** A client that starts afresh, and two items of another device. */
  function TwoItems(): World {
    World(map["1" := RelayItem("1", "other", "a"), "2" := RelayItem("2", "other", "b")], Client(None, None, []))
  }

  /** The relay stores and serves data that does not decode, on which every import fails: with such an item in front, no run
      of ticks, restarts and pushes of other ids ever hands over the good one behind it. */
  lemma BadFirstItemStarves(run: seq<Event>)
    requires forall k, x :: 0 <= k < |run| && run[k].Tick? ==> run[k].o.ok(x) == (x.id != "1")
    requires forall k :: 0 <= k < |run| && run[k].Push? ==> run[k].item.id != "1"
    ensures NothingMissed("me", TwoItems()) && SavedBehind(TwoItems().client)
    ensures RelayItem("2", "other", "b") !in After("me", TwoItems(), run).client.imported
  {
    hide After, StringLess;
    var w := TwoItems();
    assert w.store["1"].id == "1";
    BadItemBlocks("me", w, run, "1");
    var end := After("me", w, run).client.imported;
    assert end[0..] == end;
    OneBeforeTwo();
  }

  lemma OneBeforeTwo()
    ensures StringLess("1", "2") && !StringLess("2", "1") && !StringLess("1", "1") && !StringLess("2", "2")
  {
  }

  // ----- order of delivery -----

  /** Imported ids ascend, hence are distinct, and lie at or behind the cursor. */
  ghost predicate Delivered(c: Client) {
    && Ascending(Ids(c.imported))
    && forall k :: 0 <= k < |c.imported| ==> !Past(c.cursor, c.imported[k].id)
  }

  /** The tick finds nothing to hand over, fails at once, or can import the whole page. */
  ghost predicate TickSafe(device: string, w: World, o: Outside) {
    var page := Foreign(device, Page(w.store, w.client.cursor, o.limit));
    !o.reachable || page == [] || !o.ok(page[0]) || forall x :: x in page ==> o.ok(x)
  }

  /** What an event has to meet for delivery to stay in order; a restart must not go back behind something imported. */
  ghost predicate EventSafe(device: string, w: World, e: Event) {
    match e
    case Push(_) => true
    case Tick(o) => TickSafe(device, w, o)
    case Restart => forall k :: 0 <= k < |w.client.imported| ==> !Past(w.client.saved, w.client.imported[k].id)
  }

  ghost predicate EventsSafe(device: string, w: World, run: seq<Event>)
    decreases |run|
  {
    run == [] || (EventSafe(device, w, run[0]) && EventsSafe(device, Step(device, w, run[0]), run[1..]))
  }

  /** Delivery is in order at every moment of the run. */
  ghost predicate AlwaysDelivered(device: string, w: World, run: seq<Event>)
    decreases |run|
  {
    Delivered(w.client) && (run == [] || AlwaysDelivered(device, Step(device, w, run[0]), run[1..]))
  }

  /** A tick keeps delivery in order exactly when it does not import some of a page and then fail. */
  lemma TickKeptExactly(device: string, w: World, o: Outside)
    requires Delivered(w.client)
    ensures Delivered(Step(device, w, Tick(o)).client) <==> TickSafe(device, w, o)
  {
    hide StringLess, InOrder, Page, Consume, Foreign, Past;
    var next := Step(device, w, Tick(o)).client;
    if o.reachable {
      var items := Page(w.store, w.client.cursor, o.limit);
      var page := Foreign(device, items);
      var n := |w.client.imported|;
      ConsumeHandsOver(device, items, o.ok, w.client.imported);
      FinishesExactly(device, items, o.ok, w.client.imported);
      assert next.imported == w.client.imported + next.imported[n..];
      if forall x :: x in page ==> o.ok(x) {
        TickDelivers(device, w, o);
      } else if page != [] && o.ok(page[0]) {
        assert |next.imported| > n;
        assert next.imported[n] == page[0];
        PageAscends(w.store, w.client.cursor, o.limit);
        ForeignAscends(device, items);
        assert page[0] in page;
        assert Past(next.cursor, next.imported[n].id);
      } else {
        var handed := next.imported[n..];
        assert forall k :: 0 <= k < |handed| ==> handed[k] in handed && o.ok(handed[k]);
        assert next.imported == w.client.imported;
      }
    }
  }

  lemma TickDelivers(device: string, w: World, o: Outside)
    requires Delivered(w.client) && o.reachable
    requires forall x :: x in Foreign(device, Page(w.store, w.client.cursor, o.limit)) ==> o.ok(x)
    ensures Delivered(Step(device, w, Tick(o)).client)
  {
    hide StringLess, InOrder, Page, Consume;
    var next := Step(device, w, Tick(o)).client;
    var before := w.client.imported;
    var items := Page(w.store, w.client.cursor, o.limit);
    FinishesExactly(device, items, o.ok, before);
    if items != [] {
      var last := items[|items| - 1].id;
      TickHandsOver(device, w, o);
      assert next.imported == before + next.imported[|before|..];
      forall i, j | 0 <= i < |before| && |before| <= j < |next.imported|
        ensures StringLess(before[i].id, next.imported[j].id)
      {
        assert next.imported[j] in next.imported[|before|..];
        var x, y := before[i].id, next.imported[j].id;
        var c := w.client.cursor.value;
        StringLessTotal(x, c);
        if x != c { StringLessTransitive(x, c, y); }
      }
      BothAscend(before, next.imported);
      forall k | 0 <= k < |next.imported| ensures !Past(Some(last), next.imported[k].id) {
        if k >= |before| { assert next.imported[k] in next.imported[|before|..]; }
        DeliveredBehind(w, o.limit, items, next.imported[k]);
      }
    } else {
      assert next.imported == before + [] == before;
    }
  }

  lemma BothAscend(a: seq<RelayItem>, b: seq<RelayItem>)
    requires a <= b && Ascending(Ids(a)) && Ascending(Ids(b[|a|..]))
    requires forall i, j :: 0 <= i < |a| && |a| <= j < |b| ==> StringLess(a[i].id, b[j].id)
    ensures Ascending(Ids(b))
  {
    hide StringLess;
    forall i, j | 0 <= i < j < |b| ensures StringLess(Ids(b)[i], Ids(b)[j]) {
      if j < |a| {
        assert Ids(a)[i] == Ids(b)[i] && Ids(a)[j] == Ids(b)[j];
      } else if i >= |a| {
        assert Ids(b[|a|..])[i - |a|] == Ids(b)[i] && Ids(b[|a|..])[j - |a|] == Ids(b)[j];
      }
    }
  }

  lemma DeliveredBehind(w: World, limit: nat, items: seq<RelayItem>, x: RelayItem)
    requires items == Page(w.store, w.client.cursor, limit) && items != []
    requires Delivered(w.client) && (x in w.client.imported || x in items)
    ensures !Past(Some(items[|items| - 1].id), x.id)
  {
    hide StringLess, InOrder;
    var ids := PageIds(w.store, w.client.cursor, limit);
    PageIdsStored(w.store, w.client.cursor, limit);
    var last := ids[|ids| - 1];
    if x in items {
      var k :| 0 <= k < |items| && items[k] == x;
      assert ids[k] == x.id;
      StringLessTotal(ids[k], last);
    } else {
      var k :| 0 <= k < |w.client.imported| && w.client.imported[k] == x;
      var c := w.client.cursor.value;
      assert last in Remaining(w.store, w.client.cursor);
      StringLessTotal(x.id, c);
      StringLessTotal(x.id, last);
      if x.id != c { StringLessTransitive(x.id, c, last); }
    }
  }

  lemma DeliveryKeptExactly(device: string, w: World, e: Event)
    requires Delivered(w.client)
    ensures Delivered(Step(device, w, e).client) <==> EventSafe(device, w, e)
  {
    hide Past, TickSafe, PullOnce;
    if e.Tick? {
      TickEta(device, w, e);
      TickKeptExactly(device, w, e.o);
    }
  }

  /** Over every run, failing imports, failing cursor writes and restarts included, items are handed over in strictly ascending
      id order, hence each at most once, at every moment if and only if every event is safe. */
  lemma {:induction false} OrderKeptExactly(device: string, w: World, run: seq<Event>)
    requires Delivered(w.client)
    ensures AlwaysDelivered(device, w, run) <==> EventsSafe(device, w, run)
    decreases |run|
  {
    hide Delivered, EventSafe, Step;
    if run != [] {
      var next := Step(device, w, run[0]);
      DeliveryKeptExactly(device, w, run[0]);
      if Delivered(next.client) {
        OrderKeptExactly(device, next, run[1..]);
      } else {
        NotDeliveredNow(device, next, run[1..]);
      }
    }
  }

  lemma NotDeliveredNow(device: string, w: World, run: seq<Event>)
    requires !Delivered(w.client)
    ensures !AlwaysDelivered(device, w, run)
  {
  }

  /** Imports succeed and the cursor file can be written. */
  ghost predicate Faultless(run: seq<Event>) {
    forall k :: 0 <= k < |run| && run[k].Tick? ==> run[k].o.writable && forall x :: run[k].o.ok(x)
  }

  /** In particular faultless runs, restarts and an unreachable relay included, keep the order. */
  lemma {:induction false} DeliveredInOrder(device: string, w: World, run: seq<Event>)
    requires Delivered(w.client) && w.client.saved == w.client.cursor && Faultless(run)
    ensures EventsSafe(device, w, run) && AlwaysDelivered(device, w, run)
    decreases |run|
  {
    hide Past, Page;
    if run != [] {
      var next := Step(device, w, run[0]);
      assert EventSafe(device, w, run[0]);
      DeliveryKeptExactly(device, w, run[0]);
      assert forall k :: 0 <= k < |run| - 1 ==> run[1..][k] == run[k + 1];
      DeliveredInOrder(device, next, run[1..]);
    }
  }

  /** After a failing import the next tick starts over: what was handed over before the failure is handed over again. */
  lemma FailedPageRepeats(device: string, w: World, o: Outside, o': Outside)
    requires o.reachable && o'.reachable && o'.limit == o.limit
    requires exists x :: x in Foreign(device, Page(w.store, w.client.cursor, o.limit)) && !o.ok(x)
    requires forall x :: x in Foreign(device, Page(w.store, w.client.cursor, o.limit)) ==> o'.ok(x)
    ensures var once := Step(device, w, Tick(o));
            var page := Foreign(device, Page(w.store, w.client.cursor, o.limit));
            && once.client.cursor == w.client.cursor
            && once.client.imported[|w.client.imported|..] < page
            && Step(device, once, Tick(o')).client.imported == once.client.imported + page
  {
    hide Page, Consume, Foreign;
    var items := Page(w.store, w.client.cursor, o.limit);
    var once := Step(device, w, Tick(o));
    ConsumeHandsOver(device, items, o.ok, w.client.imported);
    FinishesExactly(device, items, o.ok, w.client.imported);
    FinishesExactly(device, items, o'.ok, once.client.imported);
  }

  lemma TwoItemPage(limit: nat)
    requires limit >= 2
    ensures Page(TwoItems().store, None, limit) == [RelayItem("1", "other", "a"), RelayItem("2", "other", "b")]
  {
    var store := TwoItems().store;
    var ids := InOrder(Remaining(store, None));
    assert Remaining(store, None) == {"1", "2"};
    assert ids[0] in ids && ids[1] in ids;
    OneBeforeTwo();
    assert PageIds(store, None, limit) == ["1", "2"];
  }

  lemma TwoEvents(device: string, w: World, e: Event, f: Event)
    ensures After(device, w, [e, f]) == Step(device, Step(device, w, e), f)
  {
    hide Step;
    assert [e, f][1..] == [f] && [f][1..] == [];
    assert After(device, Step(device, w, e), [f]) == After(device, Step(device, Step(device, w, e), f), []);
  }

  /** A page of two whose second import fails, then a tick in which both succeed: the first item is handed over twice. */
  lemma HandedOverTwice(o: Outside, o': Outside)
    requires o.reachable && o'.reachable && o.limit == o'.limit >= 2
    requires (forall x :: o.ok(x) <==> x.id == "1") && forall x :: o'.ok(x)
    ensures !TickSafe("me", TwoItems(), o) && Delivered(TwoItems().client)
    ensures var a, b := RelayItem("1", "other", "a"), RelayItem("2", "other", "b");
            After("me", TwoItems(), [Tick(o), Tick(o')]).client.imported == [a, a, b]
  {
    hide Page;
    var w := TwoItems();
    var a, b := RelayItem("1", "other", "a"), RelayItem("2", "other", "b");
    TwoItemPage(o.limit);
    var once := Step("me", w, Tick(o));
    ConsumeStep("me", [a, b], o.ok, []);
    ConsumeStep("me", [b], o.ok, [a]);
    assert [a, b][1..] == [b] && [b][1..] == [];
    assert Foreign("me", [b]) == [b] && Foreign("me", [a, b]) == [a, b];
    assert [a, b][1] in [a, b];
    FailedPageRepeats("me", w, o, o');
    assert once.client.imported == [a];
    TwoEvents("me", w, Tick(o), Tick(o'));
    assert [a] + [a, b] == [a, a, b];
  }
}
