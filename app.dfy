/** The application state of `PlexManagerPro` that the engine changes: the
    collection store, the copy of it last written to the data file, and the
    flag that keeps two monitor passes from running at once. The widgets,
    threads and network calls are outside the model; what they would supply
    (text box contents, library replies, cancel flags) is passed in. */
module App {
  import opened Wrappers
  import opened Text
  import opened Media
  import opened PasteList
  import opened Store
  import opened Scan
  import opened Dispatch
  import opened Tree

  /** The inputs of one `run_process` call besides the two widgets: whether
      the Plex library can be reached, the ingestion oracles, the cancel
      flag polled before the hand-off and at the end, the two downloader
      configurations and the downloader replies. */
  datatype ProcessEnv = ProcessEnv(
    plexReachable: bool,
    ingest: IngestEnv,
    cancelBeforeDispatch: bool,
    cancelAtEnd: bool,
    radarr: ArrConfig,
    sonarr: ArrConfig,
    dispatch: DispatchEnv)

  datatype ProcessReport =
    | MissingInput                 // no name or no valid item
    | TypeMismatch                 // the name holds another media type
    | NothingNew                   // the merge appended nothing
    | NoLibrary                    // the Plex library could not be reached
    | Finished(misses: seq<Item>, attempts: seq<Attempt>, cancelled: bool)

  /** The store after a run, whether the run wrote the data file, and the report. */
  datatype ProcessResult = ProcessResult(store: Store, saved: bool, report: ProcessReport)

  function ConfigFor(t: MediaType, env: ProcessEnv): ArrConfig {
    if t == Movie then env.radarr else env.sonarr
  }

  /** The items of the chosen collection after the scan: the items that were
      there before, followed by the scanned new items. */
  function WithScanned(m: Store, col: string, t: MediaType, prefix: seq<Item>, scanned: seq<Item>): (r: Store)
    requires m.Valid()
    ensures r.Valid()
  {
    Put(m, col, Coll(t, prefix + scanned))
  }

  /** One `run_process` (lines 385-480) as a function of the store before it. */
  function Process(s: Store, colEntry: string, t: MediaType, text: string, c: Collation, env: ProcessEnv): ProcessResult
    requires s.Valid()
  {
    var col := Strip(colEntry);
    var items := PasteItems(text);
    if col == [] || items == [] then ProcessResult(s, false, MissingInput)
    else match MergeBatch(s, col, t, items, c.lower)
      case Mismatch => ProcessResult(s, false, TypeMismatch)
      case Merged(m, _, toScan) => AfterMerge(m, col, t, ItemsOf(s, col), toScan, c, env)
  }

  /** The rest of a run once the merged store `m` is saved (lines 427-480):
      the new items `toScan` that follow `prefix` in the collection are
      scanned, the store is saved again, and the misses are handed off. */
  function AfterMerge(m: Store, col: string, t: MediaType, prefix: seq<Item>, toScan: seq<Item>, c: Collation, env: ProcessEnv): ProcessResult
    requires m.Valid()
  {
    if toScan == [] then ProcessResult(m, true, NothingNew)
    else if !env.plexReachable then ProcessResult(m, true, NoLibrary)
    else
      var k := IngestStop(toScan, env.ingest);
      var misses := Misses(toScan, k, env.ingest, c);
      var attempts :=
        if misses != [] && !env.cancelBeforeDispatch then Dispatched(t, ConfigFor(t, env), misses, env.dispatch) else [];
      ProcessResult(WithScanned(m, col, t, prefix, Ingested(toScan, env.ingest, c)), true,
                    Finished(misses, attempts, env.cancelAtEnd))
  }

  /** The outcome of one `run_monitor`. */
  datatype MonitorReport =
    | AlreadyRunning   // another pass holds the flag: nothing happens
    | ConnectFailed    // the server or a library section could not be reached
    | Aborted          // an entry without a type raised mid-pass
    | ScanComplete     // reported also when the pass stopped on cancel

  class MediaCommand {
    var collections: Store
    var onDisk: Option<Store>
    var monitorRunning: bool

    ghost predicate Valid()
      reads this
    {
      collections.Valid()
    }

    /** Start-up: the store is read from the data file (None when the file is
        missing or unreadable) and gets a `_schema` entry if it lacks one. */
    constructor(file: Option<Store>)
      requires file.Some? ==> file.value.Valid()
      ensures Valid()
      ensures collections == Load(file) && onDisk == file && !monitorRunning
    {
      collections := Load(file);
      onDisk := file;
      monitorRunning := false;
    }

    /** `run_process`: parse the paste box, merge into the named collection,
        save, scan the new items, save, and hand the misses to the
        downloader. */
    method RunProcess(colEntry: string, t: MediaType, text: string, c: Collation, env: ProcessEnv)
      returns (report: ProcessReport)
      requires Valid()
      modifies this
      ensures Valid()
      ensures var r := Process(old(collections), colEntry, t, text, c, env);
        && collections == r.store && report == r.report
        && onDisk == (if r.saved then Some(r.store) else old(onDisk))
      ensures monitorRunning == old(monitorRunning)
    {
      var col := Strip(colEntry);
      var items := ParseList(SplitOn(Strip(text), '\n'));
      if col == [] || items == [] {
        return MissingInput;
      }
      var merged, prefix, toScan := MergeInto(col, t, items, c.lower);
      if !merged {
        return TypeMismatch;
      }
      onDisk := Some(collections);
      report := ScanNewItems(col, t, prefix, toScan, c, env);
    }

    /** The merge step of `run_process`: refused when the name holds another
        media type, otherwise the batch's new items are appended to the named
        collection (created when absent). */
    method MergeInto(col: string, t: MediaType, items: seq<Item>, lower: string -> string)
      returns (merged: bool, prefix: seq<Item>, toScan: seq<Item>)
      requires Valid()
      modifies this
      ensures Valid()
      ensures var m := MergeBatch(old(collections), col, t, items, lower);
        && (merged <==> m.Merged?)
        && (merged ==> collections == m.store && toScan == m.toScan && prefix == ItemsOf(old(collections), col))
        && (!merged ==> collections == old(collections))
      ensures onDisk == old(onDisk) && monitorRunning == old(monitorRunning)
    {
      if col in collections.entries {
        var existing := collections.entries[col];
        if !(existing.Coll? && existing.mediaType == t) {
          return false, [], [];
        }
        var all, added, count := MergeItems(existing.items, items, lower);
        collections := Put(collections, col, Coll(t, all));
        merged, prefix, toScan := true, existing.items, added;
      } else {
        collections := Put(collections, col, Coll(t, items));
        merged, prefix, toScan := true, [], items;
      }
    }

    /** The part of `run_process` after the first save: scan the new items
        `toScan`, which follow `prefix` in the collection, save again, and
        hand the misses to the downloader. */
    method ScanNewItems(col: string, t: MediaType, prefix: seq<Item>, toScan: seq<Item>, c: Collation, env: ProcessEnv)
      returns (report: ProcessReport)
      requires Valid()
      modifies this
      ensures Valid()
      ensures var r := AfterMerge(old(collections), col, t, prefix, toScan, c, env);
        && collections == r.store && report == r.report
        && onDisk == (if toScan != [] && env.plexReachable then Some(r.store) else old(onDisk))
      ensures monitorRunning == old(monitorRunning)
    {
      if toScan == [] {
        return NothingNew;
      }
      if !env.plexReachable {
        return NoLibrary;
      }
      var scanned, misses := IngestPass(toScan, env.ingest, c);
      collections := WithScanned(collections, col, t, prefix, scanned);
      onDisk := Some(collections);
      var attempts: seq<Attempt> := [];
      if misses != [] && !env.cancelBeforeDispatch {
        attempts := DispatchMisses(t, ConfigFor(t, env), misses, env.dispatch);
      }
      report := Finished(misses, attempts, env.cancelAtEnd);
    }

    /** `run_monitor`: skipped while another pass runs; otherwise the flag is
        held for the pass and released on every way out, and the store is
        saved unless the pass raised. */
    method RunMonitor(target: Option<string>, plexReachable: bool, env: MonitorEnv, c: Collation)
      returns (report: MonitorReport)
      requires Valid()
      modifies this
      ensures Valid()
      ensures monitorRunning == old(monitorRunning)
      ensures old(monitorRunning) ==> report == AlreadyRunning && collections == old(collections) && onDisk == old(onDisk)
      ensures !old(monitorRunning) && !plexReachable ==>
        report == ConnectFailed && collections == old(collections) && onDisk == old(onDisk)
      ensures !old(monitorRunning) && plexReachable ==>
        var r := MonitorPass(old(collections), target, env, c);
        && collections == r.store
        && report == (if r.aborted then Aborted else ScanComplete)
        && onDisk == (if r.aborted then old(onDisk) else Some(r.store))
    {
      if monitorRunning {
        return AlreadyRunning;
      }
      monitorRunning := true;
      if !plexReachable {
        monitorRunning := false;
        return ConnectFailed;
      }
      var r := MonitorLoop(collections, target, env, c);
      MonitorPassEvolves(collections, target, env, c);
      EvolvesValid(collections, r.store, ToScan(collections.order, target));
      collections := r.store;
      if r.aborted {
        report := Aborted;
      } else {
        onDisk := Some(collections);
        report := ScanComplete;
      }
      monitorRunning := false;
    }

    /** The delete of `delete_collection_data`: a name that is not in the
        store raises before the save, and nothing changes. */
    method DeleteCollection(n: string) returns (removed: bool)
      requires Valid()
      modifies this
      ensures Valid()
      ensures removed <==> n in old(collections.entries)
      ensures removed ==> collections == Remove(old(collections), n).value && onDisk == Some(collections)
      ensures !removed ==> collections == old(collections) && onDisk == old(onDisk)
      ensures monitorRunning == old(monitorRunning)
    {
      var r := Remove(collections, n);
      if r.None? {
        return false;
      }
      collections := r.value;
      onDisk := Some(collections);
      return true;
    }
  }

  /** The delete as the monitor tree drives it (lines 653-655): the name
      cell of the selected row is read back through the tree, so a name that
      `int()` accepts arrives as an int, which is no key of the document,
      and `del` raises. */
  function DeleteSelectedAsWritten(s: Store, cell: string): (r: Option<Store>)
    requires s.Valid()
    ensures r.Some? ==> ParseInt(cell).None? && r == Remove(s, cell)
  {
    match ReadCell(cell)
    case IntCell(_) => None
    case TextCell(n) => Remove(s, n)
  }

  /** A collection named by an int's decimal text, such as "2024", cannot be
      deleted from the monitor tree, although it is in the store and the
      intended delete of that name removes it. */
  lemma NumericNameNotDeleted(s: Store, n: int)
    requires s.Valid() && WithinStrLimit(n) && IntToString(n) in s.entries
    ensures DeleteSelectedAsWritten(s, IntToString(n)).None?
    ensures Remove(s, IntToString(n)).Some?
  {
    IntCellRoundTrip(n);
  }

  // ---------------------------------------------------------------- run_process properties

  /** A run without a name or without a valid item changes nothing and
      writes nothing. */
  lemma ProcessMissingInput(s: Store, colEntry: string, t: MediaType, text: string, c: Collation, env: ProcessEnv)
    requires s.Valid()
    ensures var r := Process(s, colEntry, t, text, c, env);
      (r.report == MissingInput <==> Strip(colEntry) == [] || PasteItems(text) == [])
      && (r.report == MissingInput ==> r.store == s && !r.saved)
  {
  }

  /** The type-mismatch guard: a run into a name held by another media
      type (or by a metadata entry) changes nothing, writes nothing and
      scans nothing. */
  lemma ProcessMismatch(s: Store, colEntry: string, t: MediaType, text: string, c: Collation, env: ProcessEnv)
    requires s.Valid()
    requires Strip(colEntry) != [] && PasteItems(text) != []
    ensures var r := Process(s, colEntry, t, text, c, env);
      (r.report == TypeMismatch <==> Refused(s, Strip(colEntry), t))
      && (r.report == TypeMismatch ==> r.store == s && !r.saved)
  {
  }

  /** A run leaves every other collection and metadata entry as it was, adds
      at most the one key (at the end), keeps the store well formed, and
      changes nothing unless it writes the data file. */
  lemma ProcessFrame(s: Store, colEntry: string, t: MediaType, text: string, c: Collation, env: ProcessEnv)
    requires s.Valid()
    ensures var r := Process(s, colEntry, t, text, c, env); var col := Strip(colEntry);
      && r.store.Valid()
      && (forall n :: n in s.entries && n != col ==> n in r.store.entries && r.store.entries[n] == s.entries[n])
      && (forall n :: n in r.store.entries ==> n in s.entries || n == col)
      && (r.store.order == s.order || r.store.order == s.order + [col])
      && (!r.saved ==> r.store == s)
  {
    var col := Strip(colEntry);
    var items := PasteItems(text);
    if col != [] && items != [] {
      var merge := MergeBatch(s, col, t, items, c.lower);
      if merge.Merged? {
        var m := merge.store;
        var r := AfterMerge(m, col, t, ItemsOf(s, col), merge.toScan, c, env);
        assert Process(s, colEntry, t, text, c, env) == r;
        AfterMergeFrame(m, col, t, ItemsOf(s, col), merge.toScan, c, env);
        forall n | n in s.entries && n != col
          ensures n in r.store.entries && r.store.entries[n] == s.entries[n]
        {
          assert m.entries[n] == s.entries[n];
        }
        forall n | n in r.store.entries ensures n in s.entries || n == col {
          assert n in m.entries;
        }
        assert r.store.order == m.order;
      }
    }
  }

  /** A run that writes the data file has merged into the chosen collection,
      which keeps its old items as a prefix in front of the new ones, and
      these carry the titles and years of the merge. */
  lemma ProcessCollection(s: Store, colEntry: string, t: MediaType, text: string, c: Collation, env: ProcessEnv)
    requires s.Valid()
    ensures var r := Process(s, colEntry, t, text, c, env); var col := Strip(colEntry);
      r.saved ==>
        && col in r.store.entries && r.store.entries[col].Coll? && r.store.entries[col].mediaType == t
        && var merge := MergeBatch(s, col, t, PasteItems(text), c.lower);
           && merge.Merged?
           && var items, n := r.store.entries[col].items, |ItemsOf(s, col)|;
              && n <= |items| && items[..n] == ItemsOf(s, col) && SameTitles(items[n..], merge.toScan)
  {
    var col := Strip(colEntry);
    var items := PasteItems(text);
    if col != [] && items != [] {
      var merge := MergeBatch(s, col, t, items, c.lower);
      if merge.Merged? {
        assert Process(s, colEntry, t, text, c, env) == AfterMerge(merge.store, col, t, ItemsOf(s, col), merge.toScan, c, env);
        AfterMergeFrame(merge.store, col, t, ItemsOf(s, col), merge.toScan, c, env);
      }
    }
  }

  /** After the merge only the chosen collection changes: it keeps its
      prefix and its new items keep their titles and years. */
  lemma AfterMergeFrame(m: Store, col: string, t: MediaType, prefix: seq<Item>, toScan: seq<Item>, c: Collation, env: ProcessEnv)
    requires m.Valid() && col in m.entries && m.entries[col] == Coll(t, prefix + toScan)
    ensures var r := AfterMerge(m, col, t, prefix, toScan, c, env);
      && r.store.Valid()
      && r.store.order == m.order
      && (forall n :: n in m.entries && n != col ==> n in r.store.entries && r.store.entries[n] == m.entries[n])
      && (forall n :: n in r.store.entries ==> n in m.entries)
      && col in r.store.entries && r.store.entries[col].Coll? && r.store.entries[col].mediaType == t
      && var items := r.store.entries[col].items;
         && |prefix| <= |items| && items[..|prefix|] == prefix && SameTitles(items[|prefix|..], toScan)
  {
    if toScan != [] && env.plexReachable {
      var scanned := Ingested(toScan, env.ingest, c);
      IngestKeepsItems(toScan, env.ingest, c);
      var all := prefix + scanned;
      assert all[..|prefix|] == prefix && all[|prefix|..] == scanned;
    } else {
      var all := prefix + toScan;
      assert all[..|prefix|] == prefix && all[|prefix|..] == toScan;
    }
  }

  /** The hand-off gate: misses reach the downloader only when there are
      some and cancel is clear when the pass ends; each attempt concerns a
      miss, and a miss is a new item that had no match. */
  lemma ProcessDispatchGate(s: Store, colEntry: string, t: MediaType, text: string, c: Collation, env: ProcessEnv)
    requires s.Valid()
    requires Process(s, colEntry, t, text, c, env).report.Finished?
    ensures var rep := Process(s, colEntry, t, text, c, env).report;
      && (rep.attempts != [] ==> rep.misses != [] && !env.cancelBeforeDispatch)
      && |rep.attempts| <= |rep.misses|
      && ((rep.misses != [] && !env.cancelBeforeDispatch && RStripSlash(ConfigFor(t, env).url) != []
           && !env.dispatch.cancel(0)) ==> rep.attempts != [])
      && forall m :: m in rep.misses ==> !m.found
  {
    var col := Strip(colEntry);
    var merge := MergeBatch(s, col, t, PasteItems(text), c.lower);
    AfterMergeDispatchGate(merge.store, col, t, ItemsOf(s, col), merge.toScan, c, env);
  }

  /** The hand-off gate of the scan and hand-off step. */
  lemma AfterMergeDispatchGate(m: Store, col: string, t: MediaType, prefix: seq<Item>, toScan: seq<Item>, c: Collation, env: ProcessEnv)
    requires m.Valid()
    requires AfterMerge(m, col, t, prefix, toScan, c, env).report.Finished?
    ensures var rep := AfterMerge(m, col, t, prefix, toScan, c, env).report;
      && (rep.attempts != [] ==> rep.misses != [] && !env.cancelBeforeDispatch)
      && |rep.attempts| <= |rep.misses|
      && ((rep.misses != [] && !env.cancelBeforeDispatch && RStripSlash(ConfigFor(t, env).url) != []
           && !env.dispatch.cancel(0)) ==> rep.attempts != [])
      && forall m :: m in rep.misses ==> !m.found
  {
    var k := IngestStop(toScan, env.ingest);
    MissesSpec(toScan, k, env.ingest, c);
    var rep := AfterMerge(m, col, t, prefix, toScan, c, env).report;
    if rep.misses != [] && !env.cancelBeforeDispatch {
      DispatchedShape(t, ConfigFor(t, env), rep.misses, env.dispatch);
    }
  }
}
