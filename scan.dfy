/** The two library scan passes: the ingestion pass of `run_process`, which
    walks the items just merged and collects the misses, and the monitor pass
    of `run_monitor`, which walks every collection in scope and marks new
    arrivals. The library search, the tagging call and the cancel flag are
    outside the model: they are given as oracles indexed by the position at
    which the pass consults them. */
module Scan {
  import opened Wrappers
  import opened Media
  import opened Matcher
  import opened Store

  // ---------------------------------------------------------------- ingestion

  /** For the item at position `i` of the list to scan: the library search
      result (None when the search raised), whether tagging a match with the
      collection name succeeds, and whether cancel is set when the pass polls
      before that item. */
  datatype IngestEnv = IngestEnv(search: nat -> Option<seq<Candidate>>, tag: nat -> bool, cancel: nat -> bool)

  /** What the pass does with an item it reaches. */
  datatype Visit =
    | AlreadyFound   // skipped without a search
    | Hit            // matched and tagged: marked found
    | TagFailed      // matched but tagging raised: left pending, not a miss
    | Missed         // no match: left pending and recorded as a miss

  function VisitOf(it: Item, i: nat, env: IngestEnv, c: Collation): Visit {
    if it.found then AlreadyFound
    else if FindPlex(env.search(i), it.title, it.year, c).None? then Missed
    else if env.tag(i) then Hit
    else TagFailed
  }

  /** The position at which the ingestion pass stops: the first poll that
      finds cancel set, or the end of the list. */
  function IngestStop(items: seq<Item>, env: IngestEnv): nat {
    FirstSet(env.cancel, |items|)
  }

  /** The list after the pass: items before the stop that were hits are
      marked found, and nothing else changes. */
  function Ingested(items: seq<Item>, env: IngestEnv, c: Collation): (r: seq<Item>) {
    var k := IngestStop(items, env);
    seq(|items|, j requires 0 <= j < |items| =>
      if j < k && VisitOf(items[j], j, env, c) == Hit then items[j].(found := true) else items[j])
  }

  /** The misses among the first `n` items, in scan order. */
  function Misses(items: seq<Item>, n: nat, env: IngestEnv, c: Collation): seq<Item>
    requires n <= |items|
  {
    if n == 0 then []
    else Misses(items, n - 1, env, c) + (if VisitOf(items[n - 1], n - 1, env, c) == Missed then [items[n - 1]] else [])
  }

  /** The body of the ingestion loop for the item at position `i`: found
      items are skipped, otherwise the library is searched and a match is
      tagged. */
  method VisitItem(item: Item, i: nat, env: IngestEnv, c: Collation) returns (v: Visit)
    ensures v == VisitOf(item, i, env, c)
  {
    if item.found {
      return AlreadyFound;
    }
    var found := FindPlex(env.search(i), item.title, item.year, c);
    if found.None? {
      return Missed;
    }
    if !env.tag(i) {
      return TagFailed;
    }
    return Hit;
  }

  /** The ingestion loop of `run_process` over the items to scan. */
  method IngestPass(items: seq<Item>, env: IngestEnv, c: Collation) returns (updated: seq<Item>, misses: seq<Item>)
    ensures updated == Ingested(items, env, c)
    ensures misses == Misses(items, IngestStop(items, env), env, c)
  {
    updated, misses := items, [];
    var i := 0;
    while i < |items| && !env.cancel(i)
      invariant i <= |items|
      invariant forall j :: 0 <= j < i ==> !env.cancel(j)
      invariant |updated| == |items|
      invariant forall j :: 0 <= j < |items| ==>
        updated[j] == if j < i && VisitOf(items[j], j, env, c) == Hit then items[j].(found := true) else items[j]
      invariant misses == Misses(items, i, env, c)
    {
      var v := VisitItem(items[i], i, env, c);
      if v == Hit {
        updated := updated[i := items[i].(found := true)];
      } else if v == Missed {
        updated := updated[i := items[i].(found := false)];
        misses := misses + [items[i]];
      }
      i := i + 1;
    }
    assert i == IngestStop(items, env);
  }

  /** The pass changes nothing but `found`, and only from false to true. */
  lemma IngestKeepsItems(items: seq<Item>, env: IngestEnv, c: Collation)
    ensures var r := Ingested(items, env, c);
      && SameTitles(r, items)
      && forall j :: 0 <= j < |items| ==> items[j].found ==> r[j].found
  {
  }

  /** Outcome of each item: an item before the stop that was pending ends up
      found exactly when it was matched and tagged; an item at or after the
      stop is untouched. */
  lemma IngestOutcome(items: seq<Item>, env: IngestEnv, c: Collation, j: nat)
    requires j < |items|
    ensures var r := Ingested(items, env, c); var k := IngestStop(items, env);
      && (j < k && !items[j].found ==> (r[j].found <==> VisitOf(items[j], j, env, c) == Hit))
      && (j >= k ==> r[j] == items[j])
  {
  }

  /** Each miss is a pending item before the stop whose search found
      nothing, the misses keep scan order, and every such item is a miss. */
  lemma {:induction false} MissesSpec(items: seq<Item>, n: nat, env: IngestEnv, c: Collation)
    requires n <= |items|
    ensures |Misses(items, n, env, c)| <= n
    ensures forall m :: m in Misses(items, n, env, c) ==>
      exists j :: 0 <= j < n && items[j] == m && VisitOf(items[j], j, env, c) == Missed
    ensures forall j :: 0 <= j < n && VisitOf(items[j], j, env, c) == Missed ==> items[j] in Misses(items, n, env, c)
  {
    if n > 0 {
      MissesSpec(items, n - 1, env, c);
    }
  }

  /** A tag failure is neither found nor a miss: the item stays pending and
      its position adds nothing to the misses, so the downloader never hears
      of it. */
  lemma TagFailureStaysPending(items: seq<Item>, env: IngestEnv, c: Collation, j: nat)
    requires j < |items|
    requires VisitOf(items[j], j, env, c) == TagFailed
    ensures !Ingested(items, env, c)[j].found
    ensures Misses(items, j + 1, env, c) == Misses(items, j, env, c)
  {
  }

  /** Cancel set at the first poll: nothing changes and there are no misses. */
  lemma IngestCancelledAtOnce(items: seq<Item>, env: IngestEnv, c: Collation)
    requires |items| > 0 && env.cancel(0)
    ensures Ingested(items, env, c) == items
    ensures Misses(items, IngestStop(items, env), env, c) == []
  {
    assert IngestStop(items, env) == 0;
  }

  /** Without a cancel the pass reaches every item: afterwards an item is
      pending exactly when it was pending and either had no match (a miss)
      or its tagging failed. */
  lemma IngestUncancelled(items: seq<Item>, env: IngestEnv, c: Collation)
    requires forall i :: 0 <= i < |items| ==> !env.cancel(i)
    ensures IngestStop(items, env) == |items|
    ensures forall j :: 0 <= j < |items| ==>
      (!Ingested(items, env, c)[j].found <==>
        VisitOf(items[j], j, env, c) == Missed || VisitOf(items[j], j, env, c) == TagFailed)
  {
  }

  // ---------------------------------------------------------------- monitor

  /** The places where the monitor polls its cancel flag: before the
      collection at position `ci` of the list to scan, and before item `j` of
      that collection. */
  datatype Poll = BeforeCollection(ci: nat) | BeforeItem(ci: nat, j: nat)

  /** The search result and tag success for item `j` of collection `ci`
      (searched in the movie or the TV library according to the collection's
      type), and the cancel flag at each poll. */
  datatype MonitorEnv = MonitorEnv(
    search: (MediaType, nat, nat) -> Option<seq<Candidate>>,
    tag: (nat, nat) -> bool,
    cancel: Poll -> bool)

  /** The names the monitor scans, in store order: every key that does not
      start with `_`, restricted to `target` when one is given. */
  function ToScan(order: seq<string>, target: Option<string>): (r: seq<string>)
    ensures forall n :: n in r <==> n in order && !IsMetaKey(n) && (target.None? || target == Some(n))
    ensures |r| <= |order|
  {
    if |order| == 0 then []
    else
      var n := order[|order| - 1];
      ToScan(order[..|order| - 1], target) + (if !IsMetaKey(n) && (target.None? || target == Some(n)) then [n] else [])
  }

  lemma {:induction false} ToScanDistinct(order: seq<string>, target: Option<string>)
    requires forall i, j :: 0 <= i < j < |order| ==> order[i] != order[j]
    ensures var r := ToScan(order, target); forall i, j :: 0 <= i < j < |r| ==> r[i] != r[j]
  {
    if |order| > 0 {
      var p := order[..|order| - 1];
      var n := order[|order| - 1];
      ToScanDistinct(p, target);
      assert n !in p;
      assert n !in ToScan(p, target);
      assert order == p + [n];
    }
  }

  /** Whether item `j` of collection `ci` becomes a new arrival when reached. */
  predicate Arrives(it: Item, t: MediaType, ci: nat, j: nat, env: MonitorEnv, c: Collation) {
    !it.found && FindPlex(env.search(t, ci, j), it.title, it.year, c).Some? && env.tag(ci, j)
  }

  /** The cancel flag at each item poll of collection `ci`. */
  function ItemCancel(env: MonitorEnv, ci: nat): nat -> bool {
    (j: nat) => env.cancel(BeforeItem(ci, j))
  }

  function ItemStop(items: seq<Item>, ci: nat, env: MonitorEnv): nat {
    FirstSet(ItemCancel(env, ci), |items|)
  }

  /** The items of collection `ci` after its inner loop. */
  function MonitorItems(items: seq<Item>, t: MediaType, ci: nat, env: MonitorEnv, c: Collation): (r: seq<Item>) {
    var k := ItemStop(items, ci, env);
    seq(|items|, j requires 0 <= j < |items| =>
      if j < k && Arrives(items[j], t, ci, j, env, c) then items[j].(found := true) else items[j])
  }

  /** The inner loop of `run_monitor` over one collection's items. */
  method MonitorCollection(items: seq<Item>, t: MediaType, ci: nat, env: MonitorEnv, c: Collation) returns (updated: seq<Item>)
    ensures updated == MonitorItems(items, t, ci, env, c)
  {
    updated := items;
    var cancel := ItemCancel(env, ci);
    var j := 0;
    while j < |items| && !cancel(j)
      invariant j <= |items|
      invariant forall i :: 0 <= i < j ==> !cancel(i)
      invariant |updated| == |items|
      invariant forall i :: 0 <= i < |items| ==>
        updated[i] == if i < j && Arrives(items[i], t, ci, i, env, c) then items[i].(found := true) else items[i]
    {
      var item := items[j];
      if !item.found {
        var f := FindPlex(env.search(t, ci, j), item.title, item.year, c);
        if f.Some? {
          if !env.tag(ci, j) {
            j := j + 1;
            continue;
          }
          updated := updated[j := item.(found := true)];
        }
      }
      j := j + 1;
    }
    assert j == ItemStop(items, ci, env);
  }

  /** The state of a monitor pass after the collections before position
      `ci` of `names`: the store, and whether the pass was aborted by an
      entry without a `type` (a KeyError in the source). */
  datatype PassState = PassState(store: Store, aborted: bool)

  /** The outer loop of the monitor pass from position `ci` on. */
  function MonitorFrom(s: Store, names: seq<string>, ci: nat, env: MonitorEnv, c: Collation): PassState
    decreases |names| - ci
  {
    if ci >= |names| || env.cancel(BeforeCollection(ci)) then PassState(s, false)
    else
      var n := names[ci];
      if n !in s.entries || !s.entries[n].Coll? then PassState(s, true)
      else
        var e := s.entries[n];
        var s' := Store(s.order, s.entries[n := Coll(e.mediaType, MonitorItems(e.items, e.mediaType, ci, env, c))]);
        MonitorFrom(s', names, ci + 1, env, c)
  }

  /** The monitor pass proper (lines 592-610), after the library has been
      reached: to_scan is taken from the store, then every collection in it
      is walked. */
  function MonitorPass(s: Store, target: Option<string>, env: MonitorEnv, c: Collation): PassState {
    MonitorFrom(s, ToScan(s.order, target), 0, env, c)
  }

  /** The nested loops of the monitor pass. */
  method MonitorLoop(s: Store, target: Option<string>, env: MonitorEnv, c: Collation) returns (r: PassState)
    ensures r == MonitorPass(s, target, env, c)
  {
    var names := ToScan(s.order, target);
    var cur := s;
    var ci := 0;
    while ci < |names|
      invariant ci <= |names|
      invariant MonitorFrom(cur, names, ci, env, c) == MonitorPass(s, target, env, c)
      decreases |names| - ci
    {
      if env.cancel(BeforeCollection(ci)) {
        break;
      }
      var n := names[ci];
      if n !in cur.entries || !cur.entries[n].Coll? {
        return PassState(cur, true);
      }
      var e := cur.entries[n];
      var items := MonitorCollection(e.items, e.mediaType, ci, env, c);
      cur := Store(cur.order, cur.entries[n := Coll(e.mediaType, items)]);
      ci := ci + 1;
    }
    return PassState(cur, false);
  }

  /** One collection entry may turn into another during a pass: same type,
      same items except that some pending items become found. */
  ghost predicate Grows(a: Entry, b: Entry) {
    a == b ||
    (a.Coll? && b.Coll? && a.mediaType == b.mediaType && |a.items| == |b.items| &&
     forall j :: 0 <= j < |a.items| ==>
       b.items[j] == a.items[j] || (!a.items[j].found && b.items[j] == a.items[j].(found := true)))
  }

  /** How a pass can change a store: same key order, same keys, every entry
      grows, and the entries whose names are not scanned stay as they were. */
  ghost predicate Evolves(s: Store, r: Store, scanned: seq<string>) {
    && r.order == s.order
    && r.entries.Keys == s.entries.Keys
    && (forall n :: n in s.entries ==> Grows(s.entries[n], r.entries[n]))
    && (forall n :: n in s.entries && n !in scanned ==> r.entries[n] == s.entries[n])
  }

  /** A store that evolves from a well-formed one is well formed. */
  lemma EvolvesValid(s: Store, r: Store, scanned: seq<string>)
    requires s.Valid() && Evolves(s, r, scanned)
    ensures r.Valid()
  {
  }

  lemma GrowsTrans(a: Entry, b: Entry, d: Entry)
    requires Grows(a, b) && Grows(b, d)
    ensures Grows(a, d)
  {
  }

  lemma MonitorItemsGrows(items: seq<Item>, t: MediaType, ci: nat, env: MonitorEnv, c: Collation)
    ensures Grows(Coll(t, items), Coll(t, MonitorItems(items, t, ci, env, c)))
  {
  }

  lemma {:induction false} MonitorFromEvolves(s: Store, names: seq<string>, ci: nat, env: MonitorEnv, c: Collation)
    requires ci <= |names|
    ensures Evolves(s, MonitorFrom(s, names, ci, env, c).store, names[ci..])
    decreases |names| - ci
  {
    if ci < |names| && !env.cancel(BeforeCollection(ci)) {
      var n := names[ci];
      if n in s.entries && s.entries[n].Coll? {
        var e := s.entries[n];
        var s' := Store(s.order, s.entries[n := Coll(e.mediaType, MonitorItems(e.items, e.mediaType, ci, env, c))]);
        MonitorItemsGrows(e.items, e.mediaType, ci, env, c);
        MonitorFromEvolves(s', names, ci + 1, env, c);
        var r := MonitorFrom(s', names, ci + 1, env, c).store;
        assert names[ci..] == [n] + names[ci + 1..];
        forall m | m in s.entries ensures Grows(s.entries[m], r.entries[m]) {
          GrowsTrans(s.entries[m], s'.entries[m], r.entries[m]);
        }
      }
    }
  }

  /** The monitor pass keeps the store's shape, only ever turns `found` from
      false to true, and leaves untouched every metadata entry and, when a
      target is given, every other collection. */
  lemma MonitorPassEvolves(s: Store, target: Option<string>, env: MonitorEnv, c: Collation)
    ensures var r := MonitorPass(s, target, env, c).store;
      && Evolves(s, r, ToScan(s.order, target))
      && (forall n :: n in s.entries && IsMetaKey(n) ==> r.entries[n] == s.entries[n])
      && (target.Some? ==> forall n :: n in s.entries && n != target.value ==> r.entries[n] == s.entries[n])
  {
    var names := ToScan(s.order, target);
    MonitorFromEvolves(s, names, 0, env, c);
    assert names[0..] == names;
  }

  /** A pass that finds cancel set at its first poll changes nothing. */
  lemma MonitorCancelledAtOnce(s: Store, target: Option<string>, env: MonitorEnv, c: Collation)
    requires env.cancel(BeforeCollection(0))
    ensures MonitorPass(s, target, env, c) == PassState(s, false)
  {
  }

  /** A collection reached with no cancel at any of its polls ends with
      exactly its old found items plus its new arrivals. */
  lemma MonitorItemsUncancelled(items: seq<Item>, t: MediaType, ci: nat, env: MonitorEnv, c: Collation)
    requires forall j :: 0 <= j < |items| ==> !env.cancel(BeforeItem(ci, j))
    ensures forall j :: 0 <= j < |items| ==>
      (MonitorItems(items, t, ci, env, c)[j].found <==> items[j].found || Arrives(items[j], t, ci, j, env, c))
  {
    assert ItemStop(items, ci, env) == |items|;
  }
}
