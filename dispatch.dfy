/** The downloader hand-off of `process_radarr` and `process_sonarr`: each
    miss is looked up on Radarr (movies) or Sonarr (shows), a candidate is
    chosen, and a tracked candidate is skipped while an untracked one is
    submitted. The HTTP replies are inputs, indexed by the position of the
    miss. */
module Dispatch {
  import opened Wrappers
  import opened Text
  import opened Media

  /** One lookup result, with the fields the dispatcher reads; each is None
      when the JSON object lacks the key or holds null. */
  datatype ArrCandidate = ArrCandidate(
    title: Option<string>, year: Option<int>, id: Option<int>,
    tmdbId: Option<int>, tvdbId: Option<int>, titleSlug: Option<string>)

  /** The reply to the lookup GET: the request raised, or a status with a
      body that is None when it is not valid JSON. */
  datatype LookupReply = LookupRaised | LookupAnswer(status: int, body: Option<seq<ArrCandidate>>)

  /** The reply to the submit POST. */
  datatype SubmitReply = SubmitRaised | SubmitAnswer(status: int)

  /** One downloader's configuration: base URL, root folder and quality
      profile, as the configuration holds them (text). */
  datatype ArrConfig = ArrConfig(url: string, root: string, profile: string)

  /** For the miss at position `i`: the lookup reply, the submit reply, and
      the cancel flag polled before it. `quote` stands for `quote_plus`. */
  datatype DispatchEnv = DispatchEnv(
    lookup: nat -> LookupReply, submit: nat -> SubmitReply, cancel: nat -> bool,
    quote: string -> string)

  /** The JSON body of the POST. Both kinds also send `monitored: true` and
      ask the downloader to start searching; those constants are part of the
      payload's kind. */
  datatype Payload =
    | MoviePayload(tmdbId: Option<int>, title: Option<string>, year: Option<int>, qualityProfileId: int, rootFolderPath: string)
    | SeriesPayload(tvdbId: Option<int>, title: Option<string>, titleSlug: Option<string>, qualityProfileId: int, rootFolderPath: string)

  /** What happens to one miss. `Added` and `SubmitError` are the two
      outcomes in which a POST was made. */
  datatype Outcome =
    | Error                      // lookup raised or not 200, bad JSON, or a profile that is not an int
    | Miss                       // the lookup found nothing
    | Skip                       // the chosen candidate is already tracked
    | Added(payload: Payload)    // POST answered 201
    | SubmitError(payload: Payload) // POST raised or answered another status

  datatype Attempt = Attempt(lookupUrl: string, outcome: Outcome)

  /** `url.rstrip('/')`. */
  function RStripSlash(url: string): (r: string)
    ensures |r| <= |url| && r == url[..|r|]
    ensures r == [] || r[|r| - 1] != '/'
    ensures forall i :: |r| <= i < |url| ==> url[i] == '/'
  {
    if |url| > 0 && url[|url| - 1] == '/' then RStripSlash(url[..|url| - 1]) else url
  }

  /** The search term: title and year for a movie, the title alone for a show. */
  function LookupTerm(kind: MediaType, m: Item): string {
    match kind
    case Movie => m.title + " " + IntToString(m.year)
    case Show => m.title
  }

  function LookupUrl(kind: MediaType, base: string, m: Item, quote: string -> string): string {
    base + (if kind == Movie then "/api/v3/movie/lookup?term=" else "/api/v3/series/lookup?term=")
         + quote(LookupTerm(kind, m))
  }

  /** The candidate `next(...)` picks: the first whose year equals `year`,
      else the first of all. */
  function ChooseIndex(look: seq<ArrCandidate>, year: int): (k: nat)
    requires |look| > 0
    ensures k < |look|
    ensures (exists j :: 0 <= j < |look| && look[j].year == Some(year)) ==>
      look[k].year == Some(year) && forall j :: 0 <= j < k ==> look[j].year != Some(year)
    ensures (forall j :: 0 <= j < |look| ==> look[j].year != Some(year)) ==> k == 0
  {
    FirstYear(look, year, 0)
  }

  function FirstYear(look: seq<ArrCandidate>, year: int, from: nat): (k: nat)
    requires 0 < |look| && from <= |look|
    ensures k < |look|
    ensures (exists j :: from <= j < |look| && look[j].year == Some(year)) ==>
      from <= k && look[k].year == Some(year) && forall j :: from <= j < k ==> look[j].year != Some(year)
    ensures (forall j :: from <= j < |look| ==> look[j].year != Some(year)) ==> k == 0
    decreases |look| - from
  {
    if from == |look| then 0
    else if look[from].year == Some(year) then from
    else FirstYear(look, year, from + 1)
  }

  /** `c.get("id")` is truthy: the downloader already tracks the title. */
  predicate Tracked(c: ArrCandidate) {
    c.id.Some? && c.id.value != 0
  }

  function MakePayload(kind: MediaType, c: ArrCandidate, profile: int, root: string): Payload {
    match kind
    case Movie => MoviePayload(c.tmdbId, c.title, c.year, profile, root)
    case Show => SeriesPayload(c.tvdbId, c.title, c.titleSlug, profile, root)
  }

  /** The decision for one miss, given the two replies. */
  function Decide(kind: MediaType, cfg: ArrConfig, m: Item, look: LookupReply, submit: SubmitReply): Outcome {
    match look
    case LookupRaised => Error
    case LookupAnswer(status, body) =>
      if status != 200 || body.None? then Error
      else if |body.value| == 0 then Miss
      else
        var c := body.value[ChooseIndex(body.value, m.year)];
        if Tracked(c) then Skip
        else match ParseInt(cfg.profile)
          case None => Error
          case Some(profile) =>
            var p := MakePayload(kind, c, profile, cfg.root);
            if submit == SubmitAnswer(201) then Added(p) else SubmitError(p)
  }

  /** The attempts a dispatcher run makes: none when the URL is empty once
      trailing slashes are dropped, otherwise one per miss up to the first
      poll that finds cancel set. */
  function Dispatched(kind: MediaType, cfg: ArrConfig, misses: seq<Item>, env: DispatchEnv): (r: seq<Attempt>) {
    var base := RStripSlash(cfg.url);
    if base == [] then []
    else
      seq(FirstSet(env.cancel, |misses|), i requires 0 <= i < FirstSet(env.cancel, |misses|) =>
        AttemptAt(kind, cfg, base, misses[i], i, env))
  }

  /** The attempt for the miss `m` at position `i`. */
  function AttemptAt(kind: MediaType, cfg: ArrConfig, base: string, m: Item, i: nat, env: DispatchEnv): Attempt {
    Attempt(LookupUrl(kind, base, m, env.quote), Decide(kind, cfg, m, env.lookup(i), env.submit(i)))
  }

  /** The body of the dispatcher loop for one miss (the `try` block). */
  method DecideMiss(kind: MediaType, cfg: ArrConfig, m: Item, resp: LookupReply, submit: SubmitReply)
    returns (outcome: Outcome)
    ensures outcome == Decide(kind, cfg, m, resp, submit)
  {
    if resp.LookupRaised? || resp.status != 200 || resp.body.None? {
      return Error;
    }
    var look := resp.body.value;
    if |look| == 0 {
      return Miss;
    }
    var c := look[ChooseIndex(look, m.year)];
    if Tracked(c) {
      return Skip;
    }
    var profile := ParseInt(cfg.profile);
    if profile.None? {
      return Error;
    }
    var pl := MakePayload(kind, c, profile.value, cfg.root);
    if submit.SubmitAnswer? && submit.status == 201 {
      outcome := Added(pl);
    } else {
      outcome := SubmitError(pl);
    }
  }

  /** One iteration of the dispatcher loop: the lookup URL and the decision. */
  method AttemptMiss(kind: MediaType, cfg: ArrConfig, base: string, m: Item, i: nat, env: DispatchEnv)
    returns (attempt: Attempt)
    ensures attempt == AttemptAt(kind, cfg, base, m, i, env)
  {
    var outcome := DecideMiss(kind, cfg, m, env.lookup(i), env.submit(i));
    attempt := Attempt(LookupUrl(kind, base, m, env.quote), outcome);
  }

  /** The dispatcher loop, one iteration per miss. */
  method DispatchMisses(kind: MediaType, cfg: ArrConfig, misses: seq<Item>, env: DispatchEnv)
    returns (attempts: seq<Attempt>)
    ensures attempts == Dispatched(kind, cfg, misses, env)
  {
    var url := RStripSlash(cfg.url);
    attempts := [];
    if url == [] {
      return;
    }
    var i := 0;
    while i < |misses| && !env.cancel(i)
      invariant i <= |misses|
      invariant forall j :: 0 <= j < i ==> !env.cancel(j)
      invariant |attempts| == i
      invariant forall j :: 0 <= j < i ==> attempts[j] == AttemptAt(kind, cfg, url, misses[j], j, env)
    {
      var attempt := AttemptMiss(kind, cfg, url, misses[i], i, env);
      attempts := attempts + [attempt];
      i := i + 1;
    }
    assert i == FirstSet(env.cancel, |misses|);
    ghost var d := Dispatched(kind, cfg, misses, env);
    assert |d| == i;
    assert forall j :: 0 <= j < i ==> d[j] == AttemptAt(kind, cfg, url, misses[j], j, env);
  }

  /** Whether the decision for one miss made a POST. */
  predicate Posted(o: Outcome) {
    o.Added? || o.SubmitError?
  }

  /** Exactly one POST per miss whose lookup answered 200 with a non-empty
      JSON list, whose chosen candidate is untracked and whose configured
      profile is an int; the POST carries the chosen candidate's fields. */
  lemma PostedIff(kind: MediaType, cfg: ArrConfig, m: Item, look: LookupReply, submit: SubmitReply)
    ensures var o := Decide(kind, cfg, m, look, submit);
      Posted(o) <==>
        && look.LookupAnswer? && look.status == 200 && look.body.Some? && |look.body.value| > 0
        && !Tracked(look.body.value[ChooseIndex(look.body.value, m.year)])
        && ParseInt(cfg.profile).Some?
    ensures var o := Decide(kind, cfg, m, look, submit);
      Posted(o) ==>
        && o.payload == MakePayload(kind, look.body.value[ChooseIndex(look.body.value, m.year)],
                                    ParseInt(cfg.profile).value, cfg.root)
        && (o.Added? <==> submit == SubmitAnswer(201))
  {
  }

  /** A tracked candidate is never submitted, and an empty list is a miss. */
  lemma SkipIffTracked(kind: MediaType, cfg: ArrConfig, m: Item, look: LookupReply, submit: SubmitReply)
    requires look.LookupAnswer? && look.status == 200 && look.body.Some?
    ensures Decide(kind, cfg, m, look, submit) == Miss <==> |look.body.value| == 0
    ensures Decide(kind, cfg, m, look, submit) == Skip <==>
      |look.body.value| > 0 && Tracked(look.body.value[ChooseIndex(look.body.value, m.year)])
  {
  }

  /** Nothing is attempted without a URL; otherwise the attempts cover the
      misses in order up to the first cancel, and the number of POSTs never
      exceeds the number of misses. */
  lemma DispatchedShape(kind: MediaType, cfg: ArrConfig, misses: seq<Item>, env: DispatchEnv)
    ensures RStripSlash(cfg.url) == [] ==> Dispatched(kind, cfg, misses, env) == []
    ensures RStripSlash(cfg.url) != [] ==>
      |Dispatched(kind, cfg, misses, env)| == FirstSet(env.cancel, |misses|)
    ensures |Dispatched(kind, cfg, misses, env)| <= |misses|
    ensures (forall i :: 0 <= i < |misses| ==> !env.cancel(i)) && RStripSlash(cfg.url) != [] ==>
      |Dispatched(kind, cfg, misses, env)| == |misses|
  {
  }

  /** The movie term ends with the year: splitting it at its last space and
      reading the rest as an int gives the miss's year back (the year came
      from `int()`, so `str` writes it). */
  lemma MovieTermCarriesYear(m: Item)
    requires WithinStrLimit(m.year)
    ensures var t := LookupTerm(Movie, m);
      LastIndexOf(t, ' ') == Some(|m.title|) && ParseInt(t[|m.title| + 1..]) == Some(m.year)
  {
    var t := LookupTerm(Movie, m);
    var y := IntToString(m.year);
    assert t[|m.title| + 1..] == y;
    assert t[|m.title|] == ' ';
    NotInIntToString(m.year, ' ');
    LastIndexOfAt(t, ' ', |m.title|);
    ParseIntRoundTrip(m.year);
  }
}
