/** Relay item ids, cursor paging and the pull client (aeon-sync/src/relay.rs). */
module Relay {
  import opened Words
  import opened Ordered
  import Asm

  // ----- ids -----

  function Digit(d: nat): char
    requires d < 10
  {
    ('0' as int + d) as char
  }

  /** The last `w` decimal digits of `n`, zero-padded. */
  function Decimal(n: nat, w: nat): (s: string)
    ensures |s| == w
  {
    if w == 0 then "" else Decimal(n / 10, w - 1) + [Digit(n % 10)]
  }

  function Pow10(w: nat): nat { if w == 0 then 1 else 10 * Pow10(w - 1) }

  /** Twenty digits, then what identifies content and device; every `u64` has at most twenty digits. */
  function RelayId(capturedAt: u64, shortCid: string, shortDevice: string): string {
    Decimal(capturedAt, 20) + "-" + shortCid + "-" + shortDevice
  }

  lemma {:induction false} CommonPrefix(p: string, x: string, y: string)
    ensures StringLess(p + x, p + y) <==> StringLess(x, y)
  {
    if p == "" {
      assert p + x == x && p + y == y;
    } else {
      assert (p + x)[1..] == p[1..] + x && (p + y)[1..] == p[1..] + y;
      CommonPrefix(p[1..], x, y);
    }
  }

  lemma {:induction false} DecimalOrder(a: nat, b: nat, w: nat, x: string, y: string)
    requires a < b < Pow10(w)
    ensures StringLess(Decimal(a, w) + x, Decimal(b, w) + y)
  {
    var c, d := [Digit(a % 10)], [Digit(b % 10)];
    var p, q := Decimal(a / 10, w - 1), Decimal(b / 10, w - 1);
    assert Decimal(a, w) + x == p + (c + x) && Decimal(b, w) + y == q + (d + y);
    if a / 10 < b / 10 {
      DecimalOrder(a / 10, b / 10, w - 1, c + x, d + y);
    } else {
      assert a / 10 == b / 10 && a % 10 < b % 10;
      CommonPrefix(p, c + x, d + y);
    }
  }

  lemma FiveMore(w: nat)
    ensures Pow10(w + 5) == 100_000 * Pow10(w)
  {
    assert Pow10(w + 2) == 100 * Pow10(w) && Pow10(w + 4) == 100 * Pow10(w + 2);
  }

  lemma TwentyDigits()
    ensures Pow10(20) > TWO64
  {
    FiveMore(0);
    FiveMore(5);
    FiveMore(10);
    FiveMore(15);
  }

  /** Ids order the way capture times do, for all 64-bit times and whatever follows the digits. */
  lemma IdOrderIsTimeOrder(a: u64, b: u64, cidA: string, cidB: string, devA: string, devB: string)
    requires a != b
    ensures StringLess(RelayId(a, cidA, devA), RelayId(b, cidB, devB)) <==> a < b
  {
    var x, y := "-" + cidA + "-" + devA, "-" + cidB + "-" + devB;
    assert RelayId(a, cidA, devA) == Decimal(a, 20) + x && RelayId(b, cidB, devB) == Decimal(b, 20) + y;
    TwentyDigits();
    if a < b {
      DecimalOrder(a, b, 20, x, y);
    } else {
      DecimalOrder(b, a, 20, y, x);
      StringLessTotal(RelayId(a, cidA, devA), RelayId(b, cidB, devB));
    }
  }

  // ----- the store -----

  /** Pushed ids are nonempty and neither start nor end with white space: the store sanitizes an id it is given, and one it
      makes up starts with a digit and ends with a sanitized device name. */
  predicate PlainId(id: string) { id != "" && !Asm.IsWhitespace(id[0]) && !Asm.IsWhitespace(id[|id| - 1]) }

  type ItemId = id: string | PlainId(id) witness "0"

  datatype RelayItem = RelayItem(id: ItemId, fromDevice: string, payload: string)

  /** One file per id. */
  type Store = s: map<string, RelayItem> | forall id :: id in s ==> s[id].id == id
    witness map[]

  predicate Past(cursor: Option<string>, id: string) { cursor.None? || StringLess(cursor.value, id) }

  function Remaining(store: Store, cursor: Option<string>): set<string> {
    set id | id in store && Past(cursor, id)
  }

  ghost predicate Ascending(ids: seq<string>) {
    forall i, j :: 0 <= i < j < |ids| ==> StringLess(ids[i], ids[j])
  }

  predicate IsLeast(s: set<string>, m: string) {
    m in s && forall x :: x in s ==> x == m || StringLess(m, x)
  }

  lemma {:induction false} LeastExists(s: set<string>)
    requires s != {}
    ensures exists m :: IsLeast(s, m)
    decreases |s|
  {
    var y :| y in s;
    var rest := s - {y};
    assert s == rest + {y};
    if rest == {} {
      assert IsLeast(s, y);
    } else {
      LeastExists(rest);
      var m :| IsLeast(rest, m);
      StringLessTotal(y, m);
      if StringLess(y, m) {
        forall x | x in s ensures x == y || StringLess(y, x) {
          if x in rest && x != m { StringLessTransitive(y, m, x); }
        }
        assert IsLeast(s, y);
      } else {
        assert IsLeast(s, m);
      }
    }
  }

  lemma LeastUnique(s: set<string>, m: string, n: string)
    requires IsLeast(s, m) && IsLeast(s, n)
    ensures m == n
  {
    StringLessTotal(m, n);
  }

  function Least(s: set<string>): (m: string)
    requires s != {}
    ensures IsLeast(s, m)
  {
    LeastExists(s);
    assert forall m, n :: IsLeast(s, m) && IsLeast(s, n) ==> m == n by {
      forall m, n | IsLeast(s, m) && IsLeast(s, n) ensures m == n { LeastUnique(s, m, n); }
    }
    var m :| IsLeast(s, m);
    m
  }

  /** `sort_by` on ids. */
  function InOrder(s: set<string>): (r: seq<string>)
    ensures Ascending(r) && |r| == |s|
    ensures forall x :: x in r <==> x in s
    decreases |s|
  {
    if s == {} then [] else
      var m := Least(s);
      var rest := InOrder(s - {m});
      assert forall i :: 0 <= i < |rest| ==> rest[i] in s - {m};
      [m] + rest
  }

  function Clamp(limit: nat): nat { if limit < 1 then 1 else if limit > 200 then 200 else limit }

  function Prefix(ids: seq<string>, n: nat): seq<string> { if n < |ids| then ids[..n] else ids }

  /** The ids one pull returns: the first few past the cursor, in id order. */
  function PageIds(store: Store, cursor: Option<string>, limit: nat): seq<string> {
    Prefix(InOrder(Remaining(store, cursor)), Clamp(limit))
  }

  lemma PageIdsStored(store: Store, cursor: Option<string>, limit: nat)
    ensures forall k :: 0 <= k < |PageIds(store, cursor, limit)| ==> PageIds(store, cursor, limit)[k] in Remaining(store, cursor)
    ensures Ascending(PageIds(store, cursor, limit))
    ensures Remaining(store, cursor) != {} ==> PageIds(store, cursor, limit) != []
  {
    var all := InOrder(Remaining(store, cursor));
    forall k | 0 <= k < |PageIds(store, cursor, limit)| ensures PageIds(store, cursor, limit)[k] in Remaining(store, cursor) {
      assert all[k] in all;
    }
  }

  function Page(store: Store, cursor: Option<string>, limit: nat): (r: seq<RelayItem>) {
    PageIdsStored(store, cursor, limit);
    var ids := PageIds(store, cursor, limit);
    seq(|ids|, k requires 0 <= k < |ids| => store[ids[k]])
  }

  /** `RelayStore::pull`: the directory is read in no particular order. */
  method Pull(store: Store, cursor: Option<string>, limit: nat) returns (items: seq<RelayItem>)
    ensures items == Page(store, cursor, limit)
  {
    var kept: set<string>, left := {}, store.Keys;
    while left != {}
      invariant left <= store.Keys
      invariant kept == set id | id in store && id !in left && Past(cursor, id)
      decreases left
    {
      var id :| id in left;
      if cursor.None? || StringLess(cursor.value, id) {
        kept := kept + {id};
      }
      left := left - {id};
    }
    assert kept == Remaining(store, cursor);
    items := FirstItems(store, cursor, limit, InOrder(kept));
  }

  /** `truncate`, reading each kept item. */
  method FirstItems(store: Store, cursor: Option<string>, limit: nat, ids: seq<string>) returns (items: seq<RelayItem>)
    requires ids == InOrder(Remaining(store, cursor))
    ensures items == Page(store, cursor, limit)
  {
    hide InOrder, Remaining, Past, Ascending;
    PageIdsStored(store, cursor, limit);
    InStore(store, cursor, ids);
    items := [];
    var i := 0;
    while i < |ids| && i < Clamp(limit)
      invariant 0 <= i <= |ids| && i <= Clamp(limit)
      invariant items == Page(store, cursor, limit)[..i]
    {
      assert PageIds(store, cursor, limit)[i] == ids[i];
      items := items + [store[ids[i]]];
      i := i + 1;
    }
  }

  lemma InStore(store: Store, cursor: Option<string>, ids: seq<string>)
    requires ids == InOrder(Remaining(store, cursor))
    ensures forall k :: 0 <= k < |ids| ==> ids[k] in store
  {
    assert forall k :: 0 <= k < |ids| ==> ids[k] in Remaining(store, cursor);
  }

  // ----- the client -----

  /** The cursor file: its trimmed text, if there is any. */
  function ReadCursor(text: string): (r: Option<ItemId>)
    ensures r.Some? <==> Asm.Trim(text) != ""
  {
    TrimmedIsPlain(text);
    if Asm.Trim(text) == "" then None else Some(Asm.Trim(text))
  }

  lemma TrimmedIsPlain(text: string)
    ensures Asm.Trim(text) != "" ==> PlainId(Asm.Trim(text))
  {
    TrimmedStart(text);
    TrimmedEnd(Asm.TrimStart(text));
  }

  lemma {:induction false} TrimmedStart(s: string)
    ensures Asm.TrimStart(s) == "" || !Asm.IsWhitespace(Asm.TrimStart(s)[0])
  {
    if s != "" && Asm.IsWhitespace(s[0]) { TrimmedStart(s[1..]); }
  }

  lemma {:induction false} TrimmedEnd(s: string)
    ensures Asm.TrimEnd(s) <= s && (Asm.TrimEnd(s) == "" || !Asm.IsWhitespace(Asm.TrimEnd(s)[|Asm.TrimEnd(s)| - 1]))
  {
    if s != "" && Asm.IsWhitespace(s[|s| - 1]) { TrimmedEnd(s[..|s| - 1]); }
  }

  /** A cursor written to its file is read back unchanged. */
  lemma CursorFileRoundTrip(id: ItemId)
    ensures ReadCursor(id) == Some(id)
  {
  }

  /** `saved` is what the cursor file holds; `imported` lists every item handed to the capture engine, in order. */
  datatype Client = Client(cursor: Option<ItemId>, saved: Option<ItemId>, imported: seq<RelayItem>)

  /** What one tick meets outside: whether the relay answers, which imports succeed, whether the cursor file can be written. */
  datatype Outside = Outside(limit: nat, reachable: bool, ok: RelayItem -> bool, writable: bool)

  /** Work through a page. A failed import abandons the page. */
  function Consume(device: string, items: seq<RelayItem>, ok: RelayItem -> bool, imported: seq<RelayItem>)
    : (r: (seq<RelayItem>, bool))
    ensures imported <= r.0
    decreases |items|
  {
    if items == [] then (imported, true)
    else if items[0].fromDevice == device then Consume(device, items[1..], ok, imported)
    else if !ok(items[0]) then (imported, false)
    else Consume(device, items[1..], ok, imported + [items[0]])
  }

  function PullOnce(device: string, store: Store, o: Outside, c: Client): Client {
    if !o.reachable then c
    else
      var items := Page(store, c.cursor, o.limit);
      var (imported, done) := Consume(device, items, o.ok, c.imported);
      var cursor := if done && items != [] then Some(items[|items| - 1].id) else c.cursor;
      Client(cursor, if cursor != c.cursor && o.writable then cursor else c.saved, imported)
  }

  /** The process ends and starts again: it goes on from the saved cursor. */
  function Restarted(c: Client): Client { c.(cursor := c.saved) }

  class RelayClient {
    const device: string
    var cursor: Option<ItemId>
    var cursorFile: string
    var imported: seq<RelayItem>

    function View(): Client
      reads this
    {
      Client(cursor, ReadCursor(cursorFile), imported)
    }

    constructor (device: string, cursorFile: string)
      ensures View() == Client(ReadCursor(cursorFile), ReadCursor(cursorFile), []) && this.device == device
    {
      this.device, this.cursorFile, cursor, imported := device, cursorFile, ReadCursor(cursorFile), [];
    }

    method Restart()
      modifies this`cursor
      ensures View() == Restarted(old(View()))
      ensures cursor == ReadCursor(cursorFile)
    {
      cursor := ReadCursor(cursorFile);
    }

    method Tick(store: Store, o: Outside)
      modifies this
      ensures View() == PullOnce(device, store, o, old(View()))
    {
      hide Page, ReadCursor, PlainId;
      if !o.reachable {
        return;
      }
      var items := Pull(store, cursor, o.limit);
      var latest := cursor;
      var i := 0;
      while i < |items|
        invariant 0 <= i <= |items|
        invariant cursor == old(cursor) && cursorFile == old(cursorFile)
        invariant latest == if i == 0 then cursor else Some(items[i - 1].id)
        invariant Consume(device, items[i..], o.ok, imported) == Consume(device, items, o.ok, old(imported))
      {
        assert items[i..][1..] == items[i + 1..];
        if items[i].fromDevice != device {
          if !o.ok(items[i]) {
            return;
          }
          imported := imported + [items[i]];
        }
        latest := Some(items[i].id);
        i := i + 1;
      }
      if latest != cursor {
        cursor := latest;
        if o.writable {
          cursorFile := latest.value;
          CursorFileRoundTrip(latest.value);
        }
      }
    }
  }

  // ----- runs of pushes, pulls and restarts -----

  datatype World = World(store: Store, client: Client)

  datatype Event = Push(item: RelayItem) | Tick(o: Outside) | Restart

  function Put(store: Store, item: RelayItem): Store { store[item.id := item] }

  function Step(device: string, w: World, e: Event): World {
    match e
    case Push(item) => w.(store := Put(w.store, item))
    case Tick(o) => w.(client := PullOnce(device, w.store, o, w.client))
    case Restart => w.(client := Restarted(w.client))
  }

  function After(device: string, w: World, run: seq<Event>): World
    decreases |run|
  {
    if run == [] then w else After(device, Step(device, w, run[0]), run[1..])
  }

  /** The cursor has passed only items that were imported or sent by this device. */
  ghost predicate NothingMissed(device: string, w: World) {
    forall id :: id in w.store && !Past(w.client.cursor, id) ==>
                   w.store[id].fromDevice == device || w.store[id] in w.client.imported
  }

  /** At no moment of the run has the cursor passed such an item. */
  ghost predicate NeverMissed(device: string, w: World, run: seq<Event>)
    decreases |run|
  {
    NothingMissed(device, w) && (run == [] || NeverMissed(device, Step(device, w, run[0]), run[1..]))
  }

  /** A pushed item is past the cursor, or our own, or one that was imported already. */
  predicate PushSafe(device: string, w: World, e: Event) {
    e.Push? ==> Past(w.client.cursor, e.item.id) || e.item.fromDevice == device || e.item in w.client.imported
  }

  ghost predicate PushesSafe(device: string, w: World, run: seq<Event>)
    decreases |run|
  {
    run == [] || (PushSafe(device, w, run[0]) && PushesSafe(device, Step(device, w, run[0]), run[1..]))
  }

  /** Whatever the saved cursor has passed, the cursor has passed. */
  ghost predicate SavedBehind(c: Client) { forall id :: !Past(c.saved, id) ==> !Past(c.cursor, id) }

  lemma {:induction false} ConsumedAll(device: string, items: seq<RelayItem>, ok: RelayItem -> bool, imported: seq<RelayItem>)
    requires Consume(device, items, ok, imported).1
    ensures forall k :: 0 <= k < |items| ==> items[k].fromDevice == device || items[k] in Consume(device, items, ok, imported).0
    decreases |items|
  {
    if items != [] {
      var next := if items[0].fromDevice == device then imported else imported + [items[0]];
      ConsumedAll(device, items[1..], ok, next);
      var r := Consume(device, items, ok, imported).0;
      assert next <= r;
      assert items[0].fromDevice != device ==> r[|imported|] == next[|imported|] == items[0];
      assert forall k :: 0 < k < |items| ==> items[k] == items[1..][k - 1];
    }
  }

  /** The new cursor has at or behind it exactly the page and what was behind it before. */
  lemma PageIsNext(store: Store, cursor: Option<string>, limit: nat, id: string)
    requires Page(store, cursor, limit) != [] && id in store
    ensures var items := Page(store, cursor, limit);
            !Past(Some(items[|items| - 1].id), id) <==> !Past(cursor, id) || store[id] in items
  {
    hide StringLess, InOrder;
    var all, ids := InOrder(Remaining(store, cursor)), PageIds(store, cursor, limit);
    var items := Page(store, cursor, limit);
    var last := ids[|ids| - 1];
    PageIdsStored(store, cursor, limit);
    assert last in Remaining(store, cursor) && items[|items| - 1].id == last;
    StringLessTotal(last, id);
    if !Past(cursor, id) {
      StringLessTotal(cursor.value, id);
      if StringLess(last, id) { StringLessTransitive(cursor.value, last, id); }
    } else {
      assert id in all;
      var k :| 0 <= k < |all| && all[k] == id;
      if k < |ids| {
        assert items[k] == store[id];
        if k < |ids| - 1 { StringLessTotal(all[k], last); assert StringLess(all[k], all[|ids| - 1]); }
      } else {
        assert StringLess(all[|ids| - 1], all[k]);
        forall j | 0 <= j < |items| ensures items[j] != store[id] {
          assert items[j].id == all[j] && StringLess(all[j], all[k]);
          StringLessTotal(all[j], all[j]);
        }
      }
    }
  }

  /** The cursor only moves forward. */
  lemma CursorAdvances(device: string, store: Store, o: Outside, c: Client, id: string)
    requires !Past(c.cursor, id)
    ensures !Past(PullOnce(device, store, o, c).cursor, id)
    ensures forall k :: 0 <= k < |Page(store, c.cursor, o.limit)| ==> Page(store, c.cursor, o.limit)[k].id != id
  {
    hide StringLess, InOrder;
    PageIdsStored(store, c.cursor, o.limit);
    var items := Page(store, c.cursor, o.limit);
    assert forall k :: 0 <= k < |items| ==> items[k].id == PageIds(store, c.cursor, o.limit)[k];
    if items != [] {
      var last := items[|items| - 1].id;
      assert last in Remaining(store, c.cursor);
      StringLessTotal(c.cursor.value, id);
      StringLessTotal(last, id);
      if StringLess(last, id) { StringLessTransitive(c.cursor.value, last, id); }
    }
  }

  lemma StepKeepsSaved(device: string, w: World, e: Event)
    requires SavedBehind(w.client)
    ensures SavedBehind(Step(device, w, e).client)
  {
    hide PullOnce, Past;
    if e.Tick? {
      var next := Step(device, w, e).client;
      assert next.saved == w.client.saved || next.saved == next.cursor by { SavedOrCursor(device, w.store, e.o, w.client); }
      forall id | !Past(w.client.saved, id) ensures !Past(next.cursor, id) {
        CursorAdvances(device, w.store, e.o, w.client, id);
      }
    }
  }

  lemma SavedOrCursor(device: string, store: Store, o: Outside, c: Client)
    ensures var next := PullOnce(device, store, o, c); next.saved == c.saved || next.saved == next.cursor
  {
  }

  lemma TickMissesNothing(device: string, w: World, o: Outside)
    requires NothingMissed(device, w)
    ensures NothingMissed(device, Step(device, w, Tick(o)))
  {
    var next := Step(device, w, Tick(o));
    var items := Page(w.store, w.client.cursor, o.limit);
    var (imported, done) := Consume(device, items, o.ok, w.client.imported);
    forall id | id in next.store && !Past(next.client.cursor, id)
      ensures next.store[id].fromDevice == device || next.store[id] in next.client.imported
    {
      if o.reachable && done && items != [] {
        PageIsNext(w.store, w.client.cursor, o.limit, id);
        ConsumedAll(device, items, o.ok, w.client.imported);
        if w.store[id] in items {
          var k :| 0 <= k < |items| && items[k] == w.store[id];
        }
      }
    }
  }

  /** Only an unsafe push makes the cursor pass an item that was never handed over. */
  lemma StepMissesNothing(device: string, w: World, e: Event)
    requires NothingMissed(device, w) && SavedBehind(w.client)
    ensures NothingMissed(device, Step(device, w, e)) <==> PushSafe(device, w, e)
  {
    hide PullOnce, Past;
    match e
    case Push(item) => assert item.id in Put(w.store, item);
    case Tick(o) => TickMissesNothing(device, w, o);
    case Restart =>
  }

  /** Over every run of pushes, ticks and restarts, with an unreachable relay, failing imports and cursor files that cannot be
      written: the cursor never passes an item neither imported nor our own if and only if every push is safe. */
  lemma {:induction false} CursorNeverSkips(device: string, w: World, run: seq<Event>)
    requires NothingMissed(device, w) && SavedBehind(w.client)
    ensures NeverMissed(device, w, run) <==> PushesSafe(device, w, run)
    decreases |run|
  {
    hide Step, NothingMissed, SavedBehind, PushSafe;
    if run != [] {
      StepMissesNothing(device, w, run[0]);
      StepKeepsSaved(device, w, run[0]);
      if PushSafe(device, w, run[0]) {
        CursorNeverSkips(device, Step(device, w, run[0]), run[1..]);
      } else {
        NotMissedNow(device, Step(device, w, run[0]), run[1..]);
      }
    }
  }

  lemma NotMissedNow(device: string, w: World, run: seq<Event>)
    requires !NothingMissed(device, w)
    ensures !NeverMissed(device, w, run)
  {
  }

  // ----- ids read back -----

  lemma {:induction false} DecimalReads(n: nat, w: nat)
    requires n < Pow10(w)
    ensures Asm.DigitsValue(Decimal(n, w), 10, n) == Some(n)
    decreases w
  {
    if w > 0 {
      DecimalReads(n / 10, w - 1);
      DigitsBound(Decimal(n / 10, w - 1), n / 10, n);
      var s := Decimal(n, w);
      assert s[..|s| - 1] == Decimal(n / 10, w - 1);
      assert Asm.DigitValue(Digit(n % 10), 10) == Some(n % 10);
    }
  }

  /** A larger bound changes nothing about digits that meet a smaller one. */
  lemma {:induction false} DigitsBound(s: string, small: nat, large: nat)
    requires small <= large && Asm.DigitsValue(s, 10, small).Some?
    ensures Asm.DigitsValue(s, 10, large) == Asm.DigitsValue(s, 10, small)
    decreases |s|
  {
    if s != "" { DigitsBound(s[..|s| - 1], small, large); }
  }

  /** An id is the capture time in twenty digits, a dash, the content, a dash and the device. */
  lemma RelayIdParts(capturedAt: u64, cid: string, device: string)
    ensures var id := RelayId(capturedAt, cid, device);
            && |id| == 22 + |cid| + |device| && Asm.DigitsValue(id[..20], 10, capturedAt) == Some(capturedAt)
            && id[20] == '-' && id[21..21 + |cid|] == cid && id[21 + |cid|] == '-' && id[22 + |cid|..] == device
  {
    hide Decimal, Asm.DigitsValue, Pow10;
    TwentyDigits();
    DecimalReads(capturedAt, 20);
    Parts(Decimal(capturedAt, 20), cid, device);
  }

  lemma Parts(time: string, cid: string, device: string)
    requires |time| == 20
    ensures var id := time + "-" + cid + "-" + device;
            && |id| == 22 + |cid| + |device| && id[..20] == time
            && id[20] == '-' && id[21..21 + |cid|] == cid && id[21 + |cid|] == '-' && id[22 + |cid|..] == device
  {
  }
}
