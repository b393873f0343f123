/**
 * The failover scheduler: a rotating work queue with a tried list for each request. What the outside world
 * decides (availability, connects, answers, shutdown) is an oracle consulted once a pass, so a claim for every
 * world is a claim for every behaviour of the servers and of other downloads.
 */
module DownloaderModel {
  import opened Bytes

  datatype Config = Config(id: Text, priority: nat, enabled: bool)

  datatype Article = Article(messageId: Text, segment: nat, tried: seq<Text>)

  /** `slot` is the article's place in the batch; it tells equal articles apart. */
  datatype Request = Request(slot: nat, article: Article, tried: seq<Text>)

  /** A result: the serving server and its data, or neither when all servers are exhausted. */
  datatype Report = Delivered(article: Article, server: Text, data: Text) | Exhausted(article: Article)

  /** What a fetch can come back with. */
  datatype Fetch = Found(data: Text) | Missing | Failed(fatal: bool)

  type Store = (nat, Text) -> Fetch

  datatype World = World(
    stops: nat -> bool,
    available: (nat, nat) -> bool,
    connects: (nat, nat) -> bool,
    answers: (nat, nat, Text) -> Fetch)

  /** `penalized` is that a penalty has been set and recorded; how long it lasts is part of availability. */
  datatype Server = Server(
    config: Config, active: nat, articlesTried: nat, articlesFailed: nat, bytes: nat, penalized: bool)

  datatype Attempt = Attempt(slot: nat, id: Text)

  // ----- the order of the servers -----

  /** Insert before the first configuration of the same or a later priority. */
  function Insert(c: Config, cs: seq<Config>): seq<Config> {
    if cs == [] || c.priority <= cs[0].priority then [c] + cs else [cs[0]] + Insert(c, cs[1..])
  }

  /** A stable sort by priority. */
  function Sort(cs: seq<Config>): seq<Config> {
    if cs == [] then [] else Insert(cs[0], Sort(cs[1..]))
  }

  function Enabled(cs: seq<Config>): seq<Config> {
    if cs == [] then [] else (if cs[0].enabled then [cs[0]] else []) + Enabled(cs[1..])
  }

  /** The servers a downloader uses, in the order it tries them. */
  function Ranked(cs: seq<Config>): seq<Config> {
    Enabled(Sort(cs))
  }

  predicate Ascending(cs: seq<Config>) {
    forall i, j :: 0 <= i < j < |cs| ==> cs[i].priority <= cs[j].priority
  }

  function OfPriority(cs: seq<Config>, p: nat): seq<Config> {
    if cs == [] then [] else (if cs[0].priority == p then [cs[0]] else []) + OfPriority(cs[1..], p)
  }

  lemma {:induction false} InsertMembers(c: Config, cs: seq<Config>)
    ensures forall x :: x in Insert(c, cs) <==> x == c || x in cs
  {
    if !(cs == [] || c.priority <= cs[0].priority) {
      InsertMembers(c, cs[1..]);
    }
  }

  lemma AscendingCons(c: Config, cs: seq<Config>)
    requires Ascending(cs) && forall x :: x in cs ==> c.priority <= x.priority
    ensures Ascending([c] + cs)
  {
    var out := [c] + cs;
    forall i, j | 0 <= i < j < |out|
      ensures out[i].priority <= out[j].priority
    {
      assert out[j] == cs[j - 1] && out[j] in cs;
      assert i > 0 ==> out[i] == cs[i - 1];
    }
  }

  lemma AscendingHead(cs: seq<Config>)
    requires Ascending(cs) && cs != []
    ensures Ascending(cs[1..]) && forall x :: x in cs[1..] ==> cs[0].priority <= x.priority
  {
  }

  lemma {:induction false} InsertAscending(c: Config, cs: seq<Config>)
    requires Ascending(cs)
    ensures Ascending(Insert(c, cs))
  {
    if cs != [] {
      AscendingHead(cs);
    }
    if cs == [] || c.priority <= cs[0].priority {
      assert forall x :: x in cs ==> x == cs[0] || x in cs[1..];
      AscendingCons(c, cs);
    } else {
      InsertMembers(c, cs[1..]);
      InsertAscending(c, cs[1..]);
      AscendingCons(cs[0], Insert(c, cs[1..]));
    }
  }

  lemma OfPriorityCons(c: Config, cs: seq<Config>, p: nat)
    ensures OfPriority([c] + cs, p) == (if c.priority == p then [c] else []) + OfPriority(cs, p)
  {
    assert ([c] + cs)[1..] == cs;
  }

  /** Within a priority, the inserted configuration comes first: the sort is stable. */
  lemma {:induction false} InsertStable(c: Config, cs: seq<Config>, p: nat)
    ensures OfPriority(Insert(c, cs), p) == (if c.priority == p then [c] else []) + OfPriority(cs, p)
  {
    if cs == [] || c.priority <= cs[0].priority {
      OfPriorityCons(c, cs, p);
    } else {
      InsertStable(c, cs[1..], p);
      OfPriorityCons(cs[0], Insert(c, cs[1..]), p);
      var rest := OfPriority(cs[1..], p);
      if c.priority == p {
        assert OfPriority(cs, p) == [] + rest == rest;
      } else {
        assert [] + OfPriority(cs, p) == OfPriority(cs, p) && [] + rest == rest;
      }
    }
  }

  lemma {:induction false} SortStable(cs: seq<Config>, p: nat)
    ensures Ascending(Sort(cs)) && OfPriority(Sort(cs), p) == OfPriority(cs, p)
  {
    if cs != [] {
      SortStable(cs[1..], p);
      InsertAscending(cs[0], Sort(cs[1..]));
      InsertStable(cs[0], Sort(cs[1..]), p);
    }
  }

  lemma {:induction false} EnabledAscending(cs: seq<Config>)
    requires Ascending(cs)
    ensures Ascending(Enabled(cs)) && forall x :: x in Enabled(cs) ==> x in cs && x.enabled
  {
    if cs != [] {
      AscendingHead(cs);
      EnabledAscending(cs[1..]);
      if cs[0].enabled {
        AscendingCons(cs[0], Enabled(cs[1..]));
      }
    }
  }

  lemma {:induction false} EnabledOfPriority(cs: seq<Config>, p: nat)
    ensures OfPriority(Enabled(cs), p) == Enabled(OfPriority(cs, p))
  {
    if cs != [] {
      EnabledOfPriority(cs[1..], p);
      var rest := OfPriority(cs[1..], p);
      if cs[0].enabled {
        OfPriorityCons(cs[0], Enabled(cs[1..]), p);
      } else {
        assert Enabled(cs) == Enabled(cs[1..]);
      }
      if cs[0].priority == p {
        assert OfPriority(cs, p) == [cs[0]] + rest && ([cs[0]] + rest)[1..] == rest;
      } else {
        assert OfPriority(cs, p) == rest;
      }
    }
  }

  /** The servers are exactly the enabled ones, by ascending priority, and in configured order within a priority. */
  lemma RankedOrder(cs: seq<Config>, p: nat)
    ensures Ascending(Ranked(cs))
    ensures OfPriority(Ranked(cs), p) == Enabled(OfPriority(cs, p))
  {
    SortStable(cs, p);
    EnabledAscending(Sort(cs));
    EnabledOfPriority(Sort(cs), p);
  }

  lemma {:induction false} InsertCount(c: Config, cs: seq<Config>, x: Config)
    ensures multiset(Insert(c, cs))[x] == multiset(cs)[x] + if x == c then 1 else 0
  {
    if cs == [] || c.priority <= cs[0].priority {
      assert multiset([c] + cs) == multiset([c]) + multiset(cs);
    } else {
      InsertCount(c, cs[1..], x);
      HeadCount(cs[0], cs[1..], x);
      HeadCount(cs[0], Insert(c, cs[1..]), x);
      assert cs == [cs[0]] + cs[1..];
    }
  }

  lemma HeadCount(c: Config, cs: seq<Config>, x: Config)
    ensures multiset([c] + cs)[x] == multiset(cs)[x] + if x == c then 1 else 0
  {
    assert multiset([c] + cs) == multiset([c]) + multiset(cs);
  }

  lemma {:induction false} SortCount(cs: seq<Config>, x: Config)
    ensures multiset(Sort(cs))[x] == multiset(cs)[x]
  {
    if cs != [] {
      SortCount(cs[1..], x);
      InsertCount(cs[0], Sort(cs[1..]), x);
      HeadCount(cs[0], cs[1..], x);
      assert cs == [cs[0]] + cs[1..];
    }
  }

  lemma {:induction false} EnabledCount(cs: seq<Config>, x: Config)
    ensures multiset(Enabled(cs))[x] == if x.enabled then multiset(cs)[x] else 0
  {
    if cs != [] {
      EnabledCount(cs[1..], x);
      HeadCount(cs[0], cs[1..], x);
      HeadCount(cs[0], Enabled(cs[1..]), x);
      assert cs == [cs[0]] + cs[1..];
      assert [] + Enabled(cs[1..]) == Enabled(cs[1..]);
    }
  }

  /** No enabled server is lost or repeated, and no disabled one is kept. */
  lemma RankedCount(cs: seq<Config>, x: Config)
    ensures multiset(Ranked(cs))[x] == if x.enabled then multiset(cs)[x] else 0
  {
    SortCount(cs, x);
    EnabledCount(Sort(cs), x);
  }

  /** The order of a stable sort by priority, on places in the configured list. */
  predicate Before(cs: seq<Config>, i: nat, j: nat)
    requires i < |cs| && j < |cs|
  {
    cs[i].priority < cs[j].priority || (cs[i].priority == cs[j].priority && i < j)
  }

  /** `out` lists the configurations at the places `from`, in that order. */
  ghost predicate Lists(cs: seq<Config>, out: seq<Config>, from: seq<nat>) {
    && |from| == |out|
    && (forall k :: 0 <= k < |from| ==> from[k] < |cs| && out[k] == cs[from[k]])
    && (forall j, k :: 0 <= j < k < |from| ==> Before(cs, from[j], from[k]))
  }

  lemma ListsCons(cs: seq<Config>, out: seq<Config>, from: seq<nat>, i: nat)
    requires i < |cs| && Lists(cs, out, from) && forall x :: x in from ==> Before(cs, i, x)
    ensures Lists(cs, [cs[i]] + out, [i] + from)
  {
    var more := [i] + from;
    forall j, k | 0 <= j < k < |more|
      ensures Before(cs, more[j], more[k])
    {
      assert more[k] == from[k - 1] && from[k - 1] in from;
    }
  }

  /** Insertion keeps the order when what is inserted stands before everything else. */
  lemma {:induction false} InsertLists(cs: seq<Config>, out: seq<Config>, from: seq<nat>) returns (more: seq<nat>)
    requires cs != [] && Lists(cs, out, from) && 0 !in from
    ensures Lists(cs, Insert(cs[0], out), more) && forall i :: i in more <==> i == 0 || i in from
  {
    if out == [] || cs[0].priority <= out[0].priority {
      more := [0] + from;
      forall x | x in from
        ensures Before(cs, 0, x)
      {
        var k :| 0 <= k < |from| && from[k] == x;
        assert k > 0 ==> Before(cs, from[0], from[k]);
      }
      ListsCons(cs, out, from, 0);
    } else {
      more := InsertLists(cs, out[1..], from[1..]);
      forall x | x in more
        ensures Before(cs, from[0], x)
      {
        if x != 0 {
          var k :| 0 <= k < |from[1..]| && from[1..][k] == x;
          assert Before(cs, from[0], from[k + 1]);
        }
      }
      ListsCons(cs, Insert(cs[0], out[1..]), more, from[0]);
      assert forall i :: i in from <==> i == from[0] || i in from[1..];
      more := [from[0]] + more;
    }
  }

  /** Places in the tail of a list, as places in the list. */
  function Shifted(from: seq<nat>): seq<nat> {
    seq(|from|, k requires 0 <= k < |from| => from[k] + 1)
  }

  lemma ShiftLists(cs: seq<Config>, out: seq<Config>, from: seq<nat>)
    requires cs != [] && Lists(cs[1..], out, from)
    ensures Lists(cs, out, Shifted(from))
    ensures forall i: nat :: i in Shifted(from) <==> i > 0 && i - 1 in from
  {
    forall i: nat | i > 0 && i - 1 in from
      ensures i in Shifted(from)
    {
      var k :| 0 <= k < |from| && from[k] == i - 1;
      assert Shifted(from)[k] == i;
    }
    forall j, k | 0 <= j < k < |from|
      ensures Before(cs, Shifted(from)[j], Shifted(from)[k])
    {
      assert Before(cs[1..], from[j], from[k]);
    }
  }

  lemma {:induction false} SortLists(cs: seq<Config>) returns (from: seq<nat>)
    ensures Lists(cs, Sort(cs), from) && forall i: nat :: i in from <==> i < |cs|
  {
    from := [];
    if cs != [] {
      var rest := SortLists(cs[1..]);
      ShiftLists(cs, Sort(cs[1..]), rest);
      from := InsertLists(cs, Sort(cs[1..]), Shifted(rest));
    }
  }

  lemma {:induction false} EnabledLists(cs: seq<Config>, out: seq<Config>, from: seq<nat>) returns (kept: seq<nat>)
    requires Lists(cs, out, from)
    ensures Lists(cs, Enabled(out), kept)
    ensures forall i :: i in kept <==> i in from && cs[i].enabled
  {
    kept := [];
    if out != [] {
      kept := EnabledLists(cs, out[1..], from[1..]);
      assert forall i :: i in from <==> i == from[0] || i in from[1..];
      if out[0].enabled {
        forall x | x in kept
          ensures Before(cs, from[0], x)
        {
          var k :| 0 <= k < |from[1..]| && from[1..][k] == x;
          assert Before(cs, from[0], from[k + 1]);
        }
        ListsCons(cs, Enabled(out[1..]), kept, from[0]);
        kept := [from[0]] + kept;
      } else {
        assert [] + Enabled(out[1..]) == Enabled(out[1..]);
      }
    }
  }

  /**
   * The servers are the configurations at exactly the enabled places, by ascending priority and, within a priority,
   * in configured order. As that order is strict, this leaves no freedom.
   */
  lemma RankedExactly(cs: seq<Config>) returns (from: seq<nat>)
    ensures Lists(cs, Ranked(cs), from)
    ensures forall i: nat :: i in from <==> i < |cs| && cs[i].enabled
  {
    var all := SortLists(cs);
    from := EnabledLists(cs, Sort(cs), all);
  }

  /** Where a server comes among those of its priority. */
  function Place(cs: seq<Config>, i: nat): nat
    requires i < |cs|
  {
    |OfPriority(cs[..i], cs[i].priority)|
  }

  lemma {:induction false} OfPriorityAppend(a: seq<Config>, b: seq<Config>, p: nat)
    ensures OfPriority(a + b, p) == OfPriority(a, p) + OfPriority(b, p)
  {
    if a == [] {
      assert a + b == b;
    } else {
      hide OfPriority;
      assert a + b == [a[0]] + (a[1..] + b) && a == [a[0]] + a[1..];
      OfPriorityCons(a[0], a[1..] + b, p);
      OfPriorityCons(a[0], a[1..], p);
      OfPriorityAppend(a[1..], b, p);
      var head := if a[0].priority == p then [a[0]] else [];
      assert head + (OfPriority(a[1..], p) + OfPriority(b, p)) == head + OfPriority(a[1..], p) + OfPriority(b, p);
    }
  }

  lemma PlaceIs(cs: seq<Config>, i: nat)
    requires i < |cs|
    ensures var own := OfPriority(cs, cs[i].priority);
      Place(cs, i) < |own| && own[Place(cs, i)] == cs[i]
  {
    var p := cs[i].priority;
    assert cs == cs[..i] + cs[i..] && cs[i..][0] == cs[i];
    OfPriorityAppend(cs[..i], cs[i..], p);
  }

  lemma PlaceGrows(cs: seq<Config>, i: nat, j: nat)
    requires i < j < |cs| && cs[i].priority == cs[j].priority
    ensures Place(cs, i) < Place(cs, j)
  {
    var p := cs[i].priority;
    assert cs[..j] == cs[..i] + cs[i..j] && cs[i..j][0] == cs[i];
    OfPriorityAppend(cs[..i], cs[i..j], p);
  }

  // ----- the simple rule -----

  /** The first server, passing over ids already tried, whose store has the article. */
  function FirstHolder(ids: seq<Text>, from: nat, tried: seq<Text>, store: Store, messageId: Text): Option<nat>
    requires from <= |ids|
    decreases |ids| - from
  {
    if from == |ids| then None
    else if ids[from] in tried then FirstHolder(ids, from + 1, tried, store, messageId)
    else if store(from, messageId).Found? then Some(from)
    else FirstHolder(ids, from + 1, tried + [ids[from]], store, messageId)
  }

  function Simple(ids: seq<Text>, store: Store, article: Article): Report {
    match FirstHolder(ids, 0, article.tried, store, article.messageId)
    case Some(i) =>
      if i < |ids| && store(i, article.messageId).Found?
      then Delivered(article, ids[i], store(i, article.messageId).data) else Exhausted(article)
    case None => Exhausted(article)
  }

  /** Trying the first untried server and missing there does not change what is still to be found. */
  lemma {:induction false} MissChangesNothing(
    ids: seq<Text>, from: nat, tried: seq<Text>, store: Store, messageId: Text, i: nat)
    requires from <= i < |ids| && ids[i] !in tried && !store(i, messageId).Found?
    requires forall j :: from <= j < i ==> ids[j] in tried
    ensures FirstHolder(ids, from, tried + [ids[i]], store, messageId) == FirstHolder(ids, from, tried, store, messageId)
    decreases i - from
  {
    if from < i {
      MissChangesNothing(ids, from + 1, tried, store, messageId, i);
    }
  }

  lemma {:induction false} FirstUntried(ids: seq<Text>, from: nat, tried: seq<Text>, store: Store, messageId: Text, i: nat)
    requires from <= i <= |ids| && (forall j :: from <= j < i ==> ids[j] in tried)
    requires i < |ids| ==> ids[i] !in tried && store(i, messageId).Found?
    ensures FirstHolder(ids, from, tried, store, messageId) == if i < |ids| then Some(i) else None
    decreases i - from
  {
    if from < i {
      FirstUntried(ids, from + 1, tried, store, messageId, i);
    }
  }

  predicate Distinct(ids: seq<Text>) {
    forall i, j :: 0 <= i < j < |ids| ==> ids[i] != ids[j]
  }

  predicate Holds(ids: seq<Text>, tried: seq<Text>, store: Store, messageId: Text, i: nat)
    requires i < |ids|
  {
    ids[i] !in tried && store(i, messageId).Found?
  }

  /** The rule as one would state it: the first server not initially tried that has the article, if any has it. */
  ghost predicate PlainRule(ids: seq<Text>, tried: seq<Text>, store: Store, messageId: Text, r: Option<nat>) {
    match r
    case Some(i) =>
      && i < |ids| && Holds(ids, tried, store, messageId, i)
      && forall j :: 0 <= j < i ==> !Holds(ids, tried, store, messageId, j)
    case None => forall j :: 0 <= j < |ids| ==> !Holds(ids, tried, store, messageId, j)
  }

  lemma {:induction false} FirstHolderPlain(ids: seq<Text>, from: nat, tried: seq<Text>, store: Store, messageId: Text)
    requires Distinct(ids) && from <= |ids|
    ensures var r := FirstHolder(ids, from, tried, store, messageId);
      match r
      case Some(i) =>
        && from <= i < |ids| && Holds(ids, tried, store, messageId, i)
        && forall j :: from <= j < i ==> !Holds(ids, tried, store, messageId, j)
      case None => forall j :: from <= j < |ids| ==> !Holds(ids, tried, store, messageId, j)
    decreases |ids| - from
  {
    if from < |ids| {
      if ids[from] in tried {
        FirstHolderPlain(ids, from + 1, tried, store, messageId);
      } else if !store(from, messageId).Found? {
        FirstHolderPlain(ids, from + 1, tried + [ids[from]], store, messageId);
        forall j | from < j < |ids|
          ensures Holds(ids, tried + [ids[from]], store, messageId, j) == Holds(ids, tried, store, messageId, j)
        {
        }
      }
    }
  }

  /** The scheduler follows the plain rule, for every store and every article, exactly when no two servers share an id. */
  lemma PlainRuleExactly(ids: seq<Text>)
    ensures Distinct(ids) <==>
      forall tried: seq<Text>, store: Store, messageId: Text ::
        PlainRule(ids, tried, store, messageId, FirstHolder(ids, 0, tried, store, messageId))
  {
    if Distinct(ids) {
      forall tried: seq<Text>, store: Store, messageId: Text
        ensures PlainRule(ids, tried, store, messageId, FirstHolder(ids, 0, tried, store, messageId))
      {
        FirstHolderPlain(ids, 0, tried, store, messageId);
      }
    } else {
      var i, j :| 0 <= i < j < |ids| && ids[i] == ids[j];
      var store: Store := (k: nat, m: Text) => if k == j then Found([]) else Missing;
      NeverReached(ids, 0, [], store, [], i, j);
      assert Holds(ids, [], store, [], j);
      assert !PlainRule(ids, [], store, [], FirstHolder(ids, 0, [], store, []));
    }
  }

  /** A server whose id an earlier one has is passed over. */
  lemma {:induction false} NeverReached(
    ids: seq<Text>, from: nat, tried: seq<Text>, store: Store, messageId: Text, i: nat, j: nat)
    requires i < j < |ids| && ids[i] == ids[j] && from <= |ids| && (from <= i || ids[i] in tried)
    requires forall k: nat :: store(k, messageId).Found? <==> k == j
    ensures FirstHolder(ids, from, tried, store, messageId) == None
    decreases |ids| - from
  {
    if from < |ids| {
      if ids[from] in tried {
        NeverReached(ids, from + 1, tried, store, messageId, i, j);
      } else {
        NeverReached(ids, from + 1, tried + [ids[from]], store, messageId, i, j);
      }
    }
  }

  function ConfigIds(configs: seq<Config>): (ids: seq<Text>)
    ensures |ids| == |configs|
  {
    seq(|configs|, i requires 0 <= i < |configs| => configs[i].id)
  }

  /**
   * With distinct ids, the server found holds the article at the best priority, and among the enabled servers
   * configured at that priority, in their configured order, it comes before every other holder.
   */
  lemma BestPriorityServes(configs: seq<Config>, tried: seq<Text>, store: Store, messageId: Text, j: nat)
    requires Distinct(ConfigIds(Ranked(configs))) && j < |Ranked(configs)|
    requires Holds(ConfigIds(Ranked(configs)), tried, store, messageId, j)
    ensures var ranked := Ranked(configs);
      var r := FirstHolder(ConfigIds(ranked), 0, tried, store, messageId);
      && r.Some? && r.value <= j && Holds(ConfigIds(ranked), tried, store, messageId, r.value)
      && ranked[r.value].priority <= ranked[j].priority
      && (var own := Enabled(OfPriority(configs, ranked[j].priority));
          ranked[r.value].priority == ranked[j].priority ==>
            && Place(ranked, r.value) <= Place(ranked, j) < |own|
            && (r.value != j ==> Place(ranked, r.value) < Place(ranked, j))
            && own[Place(ranked, r.value)] == ranked[r.value] && own[Place(ranked, j)] == ranked[j])
  {
    var ranked := Ranked(configs);
    FirstHolderPlain(ConfigIds(ranked), 0, tried, store, messageId);
    RankedOrder(configs, ranked[j].priority);
    var r := FirstHolder(ConfigIds(ranked), 0, tried, store, messageId).value;
    PlaceIs(ranked, r);
    PlaceIs(ranked, j);
    if r < j && ranked[r].priority == ranked[j].priority {
      PlaceGrows(ranked, r, j);
    }
  }

  // ----- work left -----

  function IdSet(ids: seq<Text>): set<Text> {
    set i | 0 <= i < |ids| :: ids[i]
  }

  /** One for reporting it, and one for each configured id still to try. */
  function Work(ids: set<Text>, request: Request): nat {
    1 + |ids - IdSet(request.tried)|
  }

  function TotalWork(ids: set<Text>, pending: seq<Request>): nat {
    if pending == [] then 0 else Work(ids, pending[0]) + TotalWork(ids, pending[1..])
  }

  lemma {:induction false} TotalWorkAppend(ids: set<Text>, pending: seq<Request>, request: Request)
    ensures TotalWork(ids, pending + [request]) == TotalWork(ids, pending) + Work(ids, request)
  {
    if pending == [] {
      assert pending + [request] == [request];
    } else {
      assert (pending + [request])[1..] == pending[1..] + [request];
      TotalWorkAppend(ids, pending[1..], request);
    }
  }

  lemma TryingIsWork(ids: set<Text>, request: Request, id: Text)
    requires id in ids && id !in request.tried
    ensures Work(ids, request.(tried := request.tried + [id])) < Work(ids, request)
  {
    IdSetAppend(request.tried, id);
    Smaller(ids - IdSet(request.tried + [id]), ids - IdSet(request.tried), id);
  }

  lemma IdSetAppend(ids: seq<Text>, id: Text)
    ensures IdSet(ids + [id]) == IdSet(ids) + {id}
  {
    forall x | x in IdSet(ids) + {id}
      ensures x in IdSet(ids + [id])
    {
      var i := if x == id then |ids| else var k :| 0 <= k < |ids| && ids[k] == x; k;
      assert (ids + [id])[i] == x;
    }
  }

  lemma Smaller(a: set<Text>, b: set<Text>, x: Text)
    requires a <= b && x in b && x !in a
    ensures |a| < |b|
  {
    assert a <= b - {x};
    NoLarger(a, b - {x});
  }

  lemma {:induction false} NoLarger(a: set<Text>, b: set<Text>)
    requires a <= b
    ensures |a| <= |b|
    decreases a
  {
    if a != {} {
      var x :| x in a;
      NoLarger(a - {x}, b - {x});
    }
  }

  lemma {:induction false} TotalWorkBound(ids: set<Text>, pending: seq<Request>)
    ensures TotalWork(ids, pending) <= |pending| * (|ids| + 1)
  {
    if pending != [] {
      TotalWorkBound(ids, pending[1..]);
      NoLarger(ids - IdSet(pending[0].tried), ids);
      assert |pending| * (|ids| + 1) == (|pending| - 1) * (|ids| + 1) + (|ids| + 1);
    }
  }

  // ----- the work loop -----

  /** The loop's state: what is pending, what has been reported, what has been attempted, and the passes made. */
  datatype Queue = Queue(pending: seq<Request>, results: seq<Report>, log: seq<Attempt>, passes: nat)

  /** The first server from `from` on that is available and whose id is not tried. */
  function Pick(ids: seq<Text>, tried: seq<Text>, available: (nat, nat) -> bool, pass: nat, from: nat): (r: Option<nat>)
    requires from <= |ids|
    ensures r.Some? ==> from <= r.value < |ids| && ids[r.value] !in tried && available(pass, r.value)
    ensures forall j :: from <= j < (if r.Some? then r.value else |ids|) ==> ids[j] in tried || !available(pass, j)
    decreases |ids| - from
  {
    if from == |ids| then None
    else if available(pass, from) && ids[from] !in tried then Some(from)
    else Pick(ids, tried, available, pass, from + 1)
  }

  /** What comes of trying server `i`: a failed connect is a fatal failure. */
  function Answer(world: World, pass: nat, i: nat, messageId: Text): Fetch {
    if world.connects(pass, i) then world.answers(pass, i, messageId) else Failed(true)
  }

  /** One pass: take the front request, and report it or put it back with one more server tried. */
  function Pass(ids: seq<Text>, world: World, s: Queue): Queue
    requires s.pending != []
  {
    var q, rest := s.pending[0], s.pending[1..];
    match Pick(ids, q.tried, world.available, s.passes, 0)
    case None => Queue(rest, s.results + [Exhausted(q.article)], s.log, s.passes + 1)
    case Some(i) =>
      var log := s.log + [Attempt(q.slot, ids[i])];
      var answer := Answer(world, s.passes, i, q.article.messageId);
      if answer.Found? then Queue(rest, s.results + [Delivered(q.article, ids[i], answer.data)], log, s.passes + 1)
      else Queue(rest + [q.(tried := q.tried + [ids[i]])], s.results, log, s.passes + 1)
  }

  function Left(ids: seq<Text>, s: Queue): nat {
    TotalWork(IdSet(ids), s.pending)
  }

  /** Every pass does some of the work left. */
  lemma PassProgress(ids: seq<Text>, world: World, s: Queue)
    requires s.pending != []
    ensures Left(ids, Pass(ids, world, s)) < Left(ids, s)
  {
    var q, rest := s.pending[0], s.pending[1..];
    var pick := Pick(ids, q.tried, world.available, s.passes, 0);
    if pick.Some? {
      var id := ids[pick.value];
      assert id in IdSet(ids);
      TryingIsWork(IdSet(ids), q, id);
      TotalWorkAppend(IdSet(ids), rest, q.(tried := q.tried + [id]));
    }
  }

  /** The whole loop: until nothing is pending, or shutdown is seen. */
  function Run(ids: seq<Text>, world: World, s: Queue): Queue
    decreases Left(ids, s)
  {
    if s.pending == [] || world.stops(s.passes) then s
    else
      PassProgress(ids, world, s);
      Run(ids, world, Pass(ids, world, s))
  }

  function Requests(articles: seq<Article>): (r: seq<Request>)
    ensures |r| == |articles|
    ensures forall k :: 0 <= k < |r| ==> r[k] == Request(k, articles[k], articles[k].tried)
  {
    seq(|articles|, k requires 0 <= k < |articles| => Request(k, articles[k], articles[k].tried))
  }

  function Start(articles: seq<Article>): Queue {
    Queue(Requests(articles), [], [], 0)
  }

  /** It ends for a reason: everything is reported, or the downloader was shut down. */
  lemma {:induction false} RunEnds(ids: seq<Text>, world: World, s: Queue)
    ensures var end := Run(ids, world, s);
      && (end.pending == [] || world.stops(end.passes))
      && end.passes + Left(ids, end) <= s.passes + Left(ids, s)
    decreases Left(ids, s)
  {
    if s.pending != [] && !world.stops(s.passes) {
      PassProgress(ids, world, s);
      RunEnds(ids, world, Pass(ids, world, s));
    }
  }

  /** Termination, in numbers: at most one pass per article for reporting it and one per distinct server id. */
  lemma PassesBounded(ids: seq<Text>, world: World, articles: seq<Article>)
    ensures Run(ids, world, Start(articles)).passes <= |articles| * (|IdSet(ids)| + 1)
  {
    RunEnds(ids, world, Start(articles));
    TotalWorkBound(IdSet(ids), Start(articles).pending);
  }

  // ----- whose turn it is -----

  /** What `k` passes come to, as long as something is pending. */
  function Passes(ids: seq<Text>, world: World, s: Queue, k: nat): Queue
    decreases k
  {
    if k == 0 || s.pending == [] then s else Passes(ids, world, Pass(ids, world, s), k - 1)
  }

  /**
   * The queue rotates: the requests ahead get their turn, one pass each, before any that has been put back, and reports
   * come out in that order.
   */
  lemma {:induction false} QueueRotates(ids: seq<Text>, world: World, s: Queue, k: nat)
    requires k <= |s.pending|
    ensures var later := Passes(ids, world, s, k);
      && s.pending[k..] <= later.pending && s.results <= later.results && s.log <= later.log
      && later.passes == s.passes + k
    decreases k
  {
    if k > 0 {
      var after, rest := Pass(ids, world, s), s.pending[1..];
      assert rest <= after.pending && s.results <= after.results && s.log <= after.log;
      QueueRotates(ids, world, after, k - 1);
      assert after.pending[k - 1..][..|rest| - (k - 1)] == rest[k - 1..] == s.pending[k..];
    }
  }

  /** Without a shutdown the run is those passes and then the rest. */
  lemma {:induction false} RunPasses(ids: seq<Text>, world: World, s: Queue, k: nat)
    requires forall n :: !world.stops(n)
    ensures Run(ids, world, s) == Run(ids, world, Passes(ids, world, s, k))
    decreases k
  {
    if k > 0 && s.pending != [] {
      RunUnfolds(ids, world, s);
      RunPasses(ids, world, Pass(ids, world, s), k - 1);
    }
  }

  // ----- conservation -----

  function Reported(results: seq<Report>): seq<Article> {
    seq(|results|, k requires 0 <= k < |results| => results[k].article)
  }

  function Waiting(pending: seq<Request>): seq<Article> {
    seq(|pending|, k requires 0 <= k < |pending| => pending[k].article)
  }

  function Ledger(s: Queue): multiset<Article> {
    multiset(Reported(s.results)) + multiset(Waiting(s.pending))
  }

  lemma PassConserves(ids: seq<Text>, world: World, s: Queue)
    requires s.pending != []
    ensures Ledger(Pass(ids, world, s)) == Ledger(s)
  {
    var q, rest := s.pending[0], s.pending[1..];
    var after := Pass(ids, world, s);
    assert Waiting(s.pending) == [q.article] + Waiting(rest);
    if after.results == s.results {
      assert Waiting(after.pending) == Waiting(rest) + [q.article];
    } else {
      assert Reported(after.results) == Reported(s.results) + [q.article];
    }
  }

  lemma {:induction false} RunConserves(ids: seq<Text>, world: World, s: Queue)
    ensures Ledger(Run(ids, world, s)) == Ledger(s)
    decreases Left(ids, s)
  {
    if s.pending != [] && !world.stops(s.passes) {
      PassProgress(ids, world, s);
      PassConserves(ids, world, s);
      RunConserves(ids, world, Pass(ids, world, s));
    }
  }

  /**
   * Whatever the servers do, the articles given are those reported plus those still pending; without shutdown,
   * exactly those reported.
   */
  lemma ArticlesConserved(ids: seq<Text>, world: World, articles: seq<Article>)
    ensures var end := Run(ids, world, Start(articles));
      && Ledger(end) == multiset(articles)
      && ((forall n :: !world.stops(n)) ==> end.pending == [] && multiset(Reported(end.results)) == multiset(articles))
  {
    var s := Start(articles);
    assert Waiting(s.pending) == articles && Reported(s.results) == [];
    RunConserves(ids, world, s);
    RunEnds(ids, world, s);
    var end := Run(ids, world, s);
    assert end.pending == [] ==> Waiting(end.pending) == [];
  }

  // ----- no server twice -----

  ghost predicate SlotsApart(pending: seq<Request>) {
    forall i, j :: 0 <= i < j < |pending| ==> pending[i].slot != pending[j].slot
  }

  ghost predicate Remembered(s: Queue) {
    forall e, i :: 0 <= e < |s.log| && 0 <= i < |s.pending| && s.log[e].slot == s.pending[i].slot
      ==> s.log[e].id in s.pending[i].tried
  }

  ghost predicate NoRepeat(log: seq<Attempt>) {
    forall d, e :: 0 <= d < e < |log| ==> log[d] != log[e]
  }

  ghost predicate Eligible(ids: seq<Text>, articles: seq<Article>, log: seq<Attempt>) {
    forall e :: 0 <= e < |log| ==> log[e].slot < |articles| && log[e].id in ids && log[e].id !in articles[log[e].slot].tried
  }

  ghost predicate Own(articles: seq<Article>, q: Request) {
    q.slot < |articles| && q.article == articles[q.slot] && forall id :: id in q.article.tried ==> id in q.tried
  }

  ghost predicate Tidy(ids: seq<Text>, articles: seq<Article>, s: Queue) {
    && SlotsApart(s.pending) && Remembered(s) && NoRepeat(s.log) && Eligible(ids, articles, s.log)
    && forall i :: 0 <= i < |s.pending| ==> Own(articles, s.pending[i])
  }

  lemma PassTidy(ids: seq<Text>, articles: seq<Article>, world: World, s: Queue)
    requires s.pending != [] && Tidy(ids, articles, s)
    ensures Tidy(ids, articles, Pass(ids, world, s))
  {
    var q, rest := s.pending[0], s.pending[1..];
    var after := Pass(ids, world, s);
    forall e | 0 <= e < |s.log|
      ensures s.log[e].slot == q.slot ==> s.log[e].id in q.tried
    {
    }
    assert Own(articles, q);
    forall i | 0 <= i < |rest|
      ensures rest[i] == s.pending[i + 1] && rest[i].slot != q.slot && Own(articles, rest[i])
    {
      assert s.pending[0].slot != s.pending[i + 1].slot;
    }
  }

  lemma {:induction false} RunTidy(ids: seq<Text>, articles: seq<Article>, world: World, s: Queue)
    requires Tidy(ids, articles, s)
    ensures Tidy(ids, articles, Run(ids, world, s))
    decreases Left(ids, s)
  {
    hide Tidy;
    if s.pending != [] && !world.stops(s.passes) {
      PassProgress(ids, world, s);
      PassTidy(ids, articles, world, s);
      RunTidy(ids, articles, world, Pass(ids, world, s));
    }
  }

  /** No request is attempted twice on one server id, nor on an id it came in with as tried. */
  lemma NoServerTwice(ids: seq<Text>, world: World, articles: seq<Article>)
    ensures NoRepeat(Run(ids, world, Start(articles)).log)
    ensures Eligible(ids, articles, Run(ids, world, Start(articles)).log)
  {
    RunTidy(ids, articles, world, Start(articles));
  }

  // ----- what is reported -----

  /** Data is only ever delivered as some server answered it, on an id that was not already tried. */
  ghost predicate Genuine(ids: seq<Text>, world: World, report: Report) {
    report.Delivered? ==> exists n, i :: GenuineAt(ids, world, report, n, i)
  }

  ghost predicate GenuineAt(ids: seq<Text>, world: World, report: Report, n: nat, i: nat)
    requires report.Delivered?
  {
    && i < |ids| && ids[i] == report.server && world.available(n, i) && world.connects(n, i)
    && world.answers(n, i, report.article.messageId) == Found(report.data)
  }

  lemma {:induction false} OnlyGenuine(ids: seq<Text>, world: World, s: Queue)
    requires forall k :: 0 <= k < |s.results| ==> Genuine(ids, world, s.results[k])
    ensures forall k :: 0 <= k < |Run(ids, world, s).results| ==> Genuine(ids, world, Run(ids, world, s).results[k])
    decreases Left(ids, s)
  {
    if s.pending != [] && !world.stops(s.passes) {
      PassProgress(ids, world, s);
      var after := Pass(ids, world, s);
      var pick := Pick(ids, s.pending[0].tried, world.available, s.passes, 0);
      if |after.results| > |s.results| && after.results[|s.results|].Delivered? {
        assert GenuineAt(ids, world, after.results[|s.results|], s.passes, pick.value);
      }
      OnlyGenuine(ids, world, after);
    }
  }

  /** No server was left to be tried: each was ruled out from the start, tried, or unavailable at pass `n`. */
  ghost predicate RuledOut(ids: seq<Text>, world: World, article: Article, log: seq<Attempt>, slot: nat, n: nat) {
    forall i :: 0 <= i < |ids| ==> ids[i] in article.tried || Attempt(slot, ids[i]) in log || !world.available(n, i)
  }

  ghost predicate Explained(ids: seq<Text>, world: World, articles: seq<Article>, s: Queue, report: Report) {
    report.Exhausted? ==> exists slot: nat, n: nat ::
      slot < |articles| && articles[slot] == report.article && n < s.passes
      && RuledOut(ids, world, report.article, s.log, slot, n)
  }

  /** What a pending request has tried is what it came in with and what the log says of it. */
  ghost predicate Traced(articles: seq<Article>, s: Queue, q: Request) {
    && q.slot < |articles| && q.article == articles[q.slot]
    && forall id :: id in q.tried ==> id in q.article.tried || Attempt(q.slot, id) in s.log
  }

  ghost predicate Accounted(ids: seq<Text>, world: World, articles: seq<Article>, s: Queue) {
    && (forall k :: 0 <= k < |s.pending| ==> Traced(articles, s, s.pending[k]))
    && (forall k :: 0 <= k < |s.results| ==> Explained(ids, world, articles, s, s.results[k]))
  }

  lemma StillExplained(ids: seq<Text>, world: World, articles: seq<Article>, s: Queue, after: Queue, report: Report)
    requires Explained(ids, world, articles, s, report) && s.log <= after.log && s.passes <= after.passes
    ensures Explained(ids, world, articles, after, report)
  {
    if report.Exhausted? {
      var slot: nat, n: nat :| slot < |articles| && articles[slot] == report.article && n < s.passes
        && RuledOut(ids, world, report.article, s.log, slot, n);
      assert RuledOut(ids, world, report.article, after.log, slot, n);
    }
  }

  lemma PassAccounts(ids: seq<Text>, world: World, articles: seq<Article>, s: Queue)
    requires s.pending != [] && Accounted(ids, world, articles, s)
    ensures Accounted(ids, world, articles, Pass(ids, world, s))
  {
    var q, rest, after := s.pending[0], s.pending[1..], Pass(ids, world, s);
    assert Traced(articles, s, q);
    forall k | 0 <= k < |after.pending|
      ensures Traced(articles, after, after.pending[k])
    {
      if k < |rest| {
        assert Traced(articles, s, s.pending[k + 1]);
      }
    }
    forall k | 0 <= k < |after.results|
      ensures Explained(ids, world, articles, after, after.results[k])
    {
      if k < |s.results| {
        StillExplained(ids, world, articles, s, after, s.results[k]);
      } else if after.results[k].Exhausted? {
        assert RuledOut(ids, world, q.article, after.log, q.slot, s.passes);
      }
    }
  }

  lemma {:induction false} RunAccounts(ids: seq<Text>, world: World, articles: seq<Article>, s: Queue)
    requires Accounted(ids, world, articles, s)
    ensures Accounted(ids, world, articles, Run(ids, world, s))
    decreases Left(ids, s)
  {
    hide Accounted;
    if s.pending != [] && !world.stops(s.passes) {
      PassProgress(ids, world, s);
      PassAccounts(ids, world, articles, s);
      RunAccounts(ids, world, articles, Pass(ids, world, s));
    }
  }

  /**
   * An article is only ever reported exhausted when, at some pass, each server was one it came in with as tried, had
   * been tried for it, or was unavailable just then.
   */
  lemma ExhaustedOnlyIfRuledOut(ids: seq<Text>, world: World, articles: seq<Article>, k: nat)
    requires k < |Run(ids, world, Start(articles)).results|
    ensures var end := Run(ids, world, Start(articles));
      Explained(ids, world, articles, end, end.results[k])
  {
    RunAccounts(ids, world, articles, Start(articles));
  }

  /** The front request is reported exhausted exactly when every server is tried or unavailable at that pass. */
  lemma ExhaustedExactly(ids: seq<Text>, world: World, s: Queue)
    requires s.pending != []
    ensures var q := s.pending[0];
      (Pass(ids, world, s).results == s.results + [Exhausted(q.article)])
        <==> (forall i :: 0 <= i < |ids| ==> ids[i] in q.tried || !world.available(s.passes, i))
  {
    var q, after := s.pending[0], Pass(ids, world, s);
    if Pick(ids, q.tried, world.available, s.passes, 0).Some? && |after.results| > |s.results| {
      assert after.results[|s.results|].Delivered?;
    }
  }

  /** So "exhausted" need not mean that nobody has it: the one server has the article, and is unavailable at pass 0. */
  lemma ExhaustedThoughHeld(id: Text, article: Article, data: Text) returns (world: World)
    requires id !in article.tried
    ensures forall n, i, m :: world.answers(n, i, m) == Found(data)
    ensures forall n, i :: world.connects(n, i) && (world.available(n, i) <==> n > 0)
    ensures Run([id], world, Start([article])).results == [Exhausted(article)]
    ensures Simple([id], (i, m) => Found(data), article) == Delivered(article, id, data)
  {
    world := World(n => false, (n, i) => n > 0, (n, i) => true, (n, i, m) => Found(data));
    var ids, s := [id], Start([article]);
    assert Pick(ids, article.tried, world.available, 0, 0) == None;
    RunUnfolds(ids, world, s);
    RunUnfolds(ids, world, Pass(ids, world, s));
  }

  /**
   * No shutdown, all servers available, every acquire succeeding, and answers that depend only on server and
   * article, found or not.
   */
  ghost predicate Steady(world: World, store: Store) {
    && (forall n :: !world.stops(n))
    && (forall n, i :: world.available(n, i))
    && (forall n, i :: world.connects(n, i))
    && (forall n, i, m :: world.answers(n, i, m) == store(i, m))
    && (forall i, m :: !store(i, m).Failed?)
  }

  /** A pending request still has the answer it started with ahead of it. */
  ghost predicate OnCourse(ids: seq<Text>, store: Store, q: Request) {
    FirstHolder(ids, 0, q.tried, store, q.article.messageId)
      == FirstHolder(ids, 0, q.article.tried, store, q.article.messageId)
  }

  ghost predicate Right(ids: seq<Text>, store: Store, s: Queue) {
    && (forall k :: 0 <= k < |s.pending| ==> OnCourse(ids, store, s.pending[k]))
    && (forall k :: 0 <= k < |s.results| ==> s.results[k] == Simple(ids, store, s.results[k].article))
  }

  lemma PassRight(ids: seq<Text>, world: World, store: Store, s: Queue)
    requires Steady(world, store) && Right(ids, store, s) && s.pending != []
    ensures Right(ids, store, Pass(ids, world, s))
  {
    var q := s.pending[0];
    var m := q.article.messageId;
    assert OnCourse(ids, store, q);
    var pick := Pick(ids, q.tried, world.available, s.passes, 0);
    if pick.None? {
      FirstUntried(ids, 0, q.tried, store, m, |ids|);
    } else if store(pick.value, m).Found? {
      FirstUntried(ids, 0, q.tried, store, m, pick.value);
    } else {
      MissChangesNothing(ids, 0, q.tried, store, m, pick.value);
    }
  }

  lemma {:induction false} RunRight(ids: seq<Text>, world: World, store: Store, s: Queue)
    requires Steady(world, store) && Right(ids, store, s)
    ensures Right(ids, store, Run(ids, world, s))
    decreases Left(ids, s)
  {
    hide Right;
    if s.pending != [] && !world.stops(s.passes) {
      PassProgress(ids, world, s);
      PassRight(ids, world, store, s);
      RunRight(ids, world, store, Pass(ids, world, s));
    }
  }

  /** Failover refines the simple rule: in a steady world each article is reported once, with the simple rule's result. */
  lemma FailoverRefinesSimpleRule(ids: seq<Text>, world: World, store: Store, articles: seq<Article>)
    requires Steady(world, store)
    ensures var end := Run(ids, world, Start(articles));
      && multiset(Reported(end.results)) == multiset(articles)
      && forall k :: 0 <= k < |end.results| ==> end.results[k] == Simple(ids, store, end.results[k].article)
  {
    RunRight(ids, world, store, Start(articles));
    ArticlesConserved(ids, world, articles);
  }

  /**
   * With distinct ids this is the rule as one would state it: an article is delivered by the first server in
   * order, not initially tried, that has it, with that server's data; it is exhausted exactly when none has it.
   */
  lemma FirstServerThatHasIt(ids: seq<Text>, world: World, store: Store, articles: seq<Article>, k: nat)
    requires Distinct(ids) && Steady(world, store) && k < |Run(ids, world, Start(articles)).results|
    ensures var report := Run(ids, world, Start(articles)).results[k];
      var a := report.article;
      match report
      case Delivered(_, server, data) =>
        exists i :: 0 <= i < |ids| && ids[i] == server && store(i, a.messageId) == Found(data)
          && PlainRule(ids, a.tried, store, a.messageId, Some(i))
      case Exhausted(_) => forall j :: 0 <= j < |ids| ==> !Holds(ids, a.tried, store, a.messageId, j)
  {
    FailoverRefinesSimpleRule(ids, world, store, articles);
    var a := Run(ids, world, Start(articles)).results[k].article;
    FirstHolderPlain(ids, 0, a.tried, store, a.messageId);
    var i := FirstHolder(ids, 0, a.tried, store, a.messageId);
    assert i.Some? ==> PlainRule(ids, a.tried, store, a.messageId, Some(i.value));
  }

  // ----- the downloader -----

  function Idle(config: Config): Server {
    Server(config, 0, 0, 0, 0, false)
  }

  function Ids(servers: seq<Server>): (ids: seq<Text>)
    ensures |ids| == |servers|
  {
    seq(|servers|, i requires 0 <= i < |servers| => servers[i].config.id)
  }

  /** A server after one fetch. */
  function Served(server: Server, answer: Fetch): Server {
    var tried := server.(articlesTried := server.articlesTried + 1);
    match answer
    case Found(data) => tried.(bytes := server.bytes + |data|)
    case Missing => tried.(articlesFailed := server.articlesFailed + 1)
    case Failed(fatal) =>
      tried.(articlesFailed := server.articlesFailed + 1, penalized := server.penalized || fatal)
  }

  /** Server `i` is picked at this pass and cannot be connected to, or fails fatally. */
  predicate PenalizedAt(ids: seq<Text>, world: World, s: Queue, i: nat)
    requires s.pending != []
  {
    && Pick(ids, s.pending[0].tried, world.available, s.passes, 0) == Some(i)
    && Answer(world, s.passes, i, s.pending[0].article.messageId) == Failed(true)
  }

  /** Some pass of the run penalizes server `i`. */
  predicate Penalizes(ids: seq<Text>, world: World, s: Queue, i: nat)
    decreases Left(ids, s)
  {
    if s.pending == [] || world.stops(s.passes) then false
    else
      PassProgress(ids, world, s);
      PenalizedAt(ids, world, s, i) || Penalizes(ids, world, Pass(ids, world, s), i)
  }

  lemma PenalizedAtIs(ids: seq<Text>, world: World, s: Queue, i: nat)
    requires s.pending != []
    ensures PenalizedAt(ids, world, s, i) <==>
      && Pick(ids, s.pending[0].tried, world.available, s.passes, 0) == Some(i)
      && Answer(world, s.passes, i, s.pending[0].article.messageId) == Failed(true)
  {
  }

  lemma PenalizesUnfolds(ids: seq<Text>, world: World, s: Queue)
    ensures forall i: nat :: Penalizes(ids, world, s, i) <==>
      && s.pending != [] && !world.stops(s.passes)
      && (PenalizedAt(ids, world, s, i) || Penalizes(ids, world, Pass(ids, world, s), i))
  {
  }

  // ----- what the statistics add up to -----

  function Sum(servers: seq<Server>, of: Server -> int): int {
    if servers == [] then 0 else Sum(servers[..|servers| - 1], of) + of(servers[|servers| - 1])
  }

  lemma {:induction false} SumUpdate(servers: seq<Server>, i: nat, to: Server, of: Server -> int)
    requires i < |servers|
    ensures Sum(servers[i := to], of) == Sum(servers, of) - of(servers[i]) + of(to)
  {
    var n := |servers| - 1;
    if i == n {
      assert servers[i := to][..n] == servers[..n];
    } else {
      assert servers[i := to][..n] == servers[..n][i := to];
      SumUpdate(servers[..n], i, to, of);
    }
  }

  function Gained(server: Server): int {
    server.bytes
  }

  /** Articles tried and not failed. */
  function Succeeded(server: Server): int {
    server.articlesTried - server.articlesFailed
  }

  function BytesIn(results: seq<Report>): nat {
    if results == [] then 0 else
    var last := results[|results| - 1];
    BytesIn(results[..|results| - 1]) + if last.Delivered? then |last.data| else 0
  }

  function DeliveredIn(results: seq<Report>): nat {
    if results == [] then 0 else
    DeliveredIn(results[..|results| - 1]) + if results[|results| - 1].Delivered? then 1 else 0
  }

  lemma NothingReported()
    ensures BytesIn([]) == 0 && DeliveredIn([]) == 0
  {
  }

  lemma ReportsGrow(results: seq<Report>, report: Report)
    ensures BytesIn(results + [report]) == BytesIn(results) + if report.Delivered? then |report.data| else 0
    ensures DeliveredIn(results + [report]) == DeliveredIn(results) + if report.Delivered? then 1 else 0
  {
    assert (results + [report])[..|results|] == results;
  }

  predicate SameButStatistics(a: Server, b: Server) {
    a.config == b.config && a.active == b.active
  }

  class Downloader {
    var servers: seq<Server>

    constructor (configs: seq<Config>)
      ensures |servers| == |Ranked(configs)|
      ensures forall i :: 0 <= i < |servers| ==> servers[i] == Idle(Ranked(configs)[i])
    {
      var ranked := Ranked(configs);
      servers := seq(|ranked|, i requires 0 <= i < |ranked| => Idle(ranked[i]));
    }

    /** Failures are among the articles tried. */
    predicate Valid()
      reads this
    {
      forall i :: 0 <= i < |servers| ==> servers[i].articlesFailed <= servers[i].articlesTried
    }

    /** `pick_server`: a scan in priority order. */
    method PickServer(tried: seq<Text>, world: World, pass: nat) returns (pick: Option<nat>)
      ensures pick == Pick(Ids(servers), tried, world.available, pass, 0)
    {
      var i := 0;
      while i < |servers|
        invariant i <= |servers|
        invariant Pick(Ids(servers), tried, world.available, pass, 0) == Pick(Ids(servers), tried, world.available, pass, i)
      {
        if !world.available(pass, i) {
          i := i + 1;
          continue;
        }
        if servers[i].config.id in tried {
          i := i + 1;
          continue;
        }
        return Some(i);
      }
      return None;
    }

    /** `record_success`. */
    method RecordSuccess(i: nat, bytes: nat)
      requires i < |servers|
      modifies this
      ensures servers == old(servers)[i := old(servers)[i].(articlesTried := old(servers)[i].articlesTried + 1,
                                                            bytes := old(servers)[i].bytes + bytes)]
    {
      servers := servers[i := servers[i].(articlesTried := servers[i].articlesTried + 1, bytes := servers[i].bytes + bytes)];
    }

    /** `record_failure`. */
    method RecordFailure(i: nat)
      requires i < |servers|
      modifies this
      ensures servers == old(servers)[i := old(servers)[i].(articlesTried := old(servers)[i].articlesTried + 1,
                                                            articlesFailed := old(servers)[i].articlesFailed + 1)]
    {
      servers := servers[i := servers[i].(articlesTried := servers[i].articlesTried + 1,
                                          articlesFailed := servers[i].articlesFailed + 1)];
    }

    /** `penalize`, as far as it is not timing. */
    method Penalize(i: nat)
      requires i < |servers|
      modifies this
      ensures servers == old(servers)[i := old(servers)[i].(penalized := true)]
    {
      servers := servers[i := servers[i].(penalized := true)];
    }

    /** A connection checked out for server `i`. */
    method CountUp(i: nat)
      requires i < |servers|
      modifies this
      ensures servers == old(servers)[i := old(servers)[i].(active := old(servers)[i].active + 1)]
    {
      servers := servers[i := servers[i].(active := servers[i].active + 1)];
    }

    /** The counter's side of `release_connection` and `discard_connection`. */
    method CountDown(i: nat)
      requires i < |servers|
      modifies this
      ensures var n := old(servers)[i].active;
        servers == old(servers)[i := old(servers)[i].(active := if n == 0 then 0 else n - 1)]
    {
      servers := servers[i := servers[i].(active := if servers[i].active == 0 then 0 else servers[i].active - 1)];
    }

    /**
     * Take a connection to server `i`, fetch, account for it, and give the connection back: released, or, after a
     * fatal failure, discarded, which for the counters is the same. A failed connect counts nothing. A failed connect
     * and a fatal failure are what penalizes a server.
     */
    method TryServer(i: nat, messageId: Text, world: World, pass: nat) returns (answer: Fetch)
      requires Valid() && i < |servers|
      modifies this
      ensures Valid() && |servers| == |old(servers)|
      ensures forall k :: 0 <= k < |servers| ==> SameButStatistics(servers[k], old(servers)[k])
      ensures answer == Answer(world, pass, i, messageId)
      ensures servers == old(servers)[i := if world.connects(pass, i) then Served(old(servers)[i], answer)
                                           else old(servers)[i].(penalized := true)]
      ensures forall k :: 0 <= k < |servers| ==>
        (servers[k].penalized <==> old(servers)[k].penalized || (k == i && answer == Failed(true)))
      ensures Sum(servers, Gained) == Sum(old(servers), Gained) + if answer.Found? then |answer.data| else 0
      ensures Sum(servers, Succeeded) == Sum(old(servers), Succeeded) + if answer.Found? then 1 else 0
    {
      hide Sum;
      if !world.connects(pass, i) {
        Penalize(i);
        SumUpdate(old(servers), i, servers[i], Gained);
        SumUpdate(old(servers), i, servers[i], Succeeded);
        return Failed(true);
      }
      CountUp(i);
      answer := world.answers(pass, i, messageId);
      match answer {
        case Found(data) => RecordSuccess(i, |data|);
        case Missing => RecordFailure(i);
        case Failed(fatal) =>
          RecordFailure(i);
          if fatal {
            Penalize(i);
          }
      }
      CountDown(i);
      SumUpdate(old(servers), i, servers[i], Gained);
      SumUpdate(old(servers), i, servers[i], Succeeded);
    }

    /**
     * `download`: the loop. It computes exactly `Run`; it returns every connection it takes, so the active counts
     * come back to what they were, and it keeps failures among the articles tried. The statistics add up: the servers
     * together have gained the bytes delivered, and one success for each article delivered.
     */
    method Download(articles: seq<Article>, world: World)
      returns (results: seq<Report>, left: seq<Request>, ghost end: Queue)
      requires Valid()
      modifies this
      ensures Valid() && |servers| == |old(servers)|
      ensures forall k :: 0 <= k < |servers| ==> SameButStatistics(servers[k], old(servers)[k])
      ensures end == Run(Ids(servers), world, Start(articles)) && results == end.results && left == end.pending
      ensures forall k :: 0 <= k < |servers| ==>
        (servers[k].penalized <==> old(servers)[k].penalized || Penalizes(Ids(servers), world, Start(articles), k))
      ensures Sum(servers, Gained) == Sum(old(servers), Gained) + BytesIn(results)
      ensures Sum(servers, Succeeded) == Sum(old(servers), Succeeded) + DeliveredIn(results)
    {
      hide Sum, BytesIn, DeliveredIn;
      NothingReported();
      hide Run, Pick, Answer, Served, Left, Penalizes, PenalizedAt;
      var pending := Requests(articles);
      results := [];
      var pass := 0;
      ghost var ids := Ids(servers);
      ghost var target := Run(ids, world, Start(articles));
      end := Start(articles);
      while pending != []
        invariant Valid() && |servers| == |old(servers)| && Ids(servers) == ids
        invariant forall k :: 0 <= k < |servers| ==> SameButStatistics(servers[k], old(servers)[k])
        invariant end.pending == pending && end.results == results && end.passes == pass
        invariant Run(ids, world, end) == target
        invariant forall k :: 0 <= k < |servers| ==>
          ((servers[k].penalized || Penalizes(ids, world, end, k))
            <==> (old(servers)[k].penalized || Penalizes(ids, world, Start(articles), k)))
        invariant Sum(servers, Gained) == Sum(old(servers), Gained) + BytesIn(results)
        invariant Sum(servers, Succeeded) == Sum(old(servers), Succeeded) + DeliveredIn(results)
        decreases Left(ids, end)
      {
        RunUnfolds(ids, world, end);
        PenalizesUnfolds(ids, world, end);
        if world.stops(pass) {
          return results, pending, end;
        }
        PassProgress(ids, world, end);
        var request := pending[0];
        pending := pending[1..];
        var pick := PickServer(request.tried, world, pass);
        ghost var before, was := end, servers;
        end := Pass(ids, world, end);
        if pick.None? {
          ReportsGrow(results, Exhausted(request.article));
          results := results + [Exhausted(request.article)];
        } else {
          var i := pick.value;
          var id := servers[i].config.id;
          var answer := TryServer(i, request.article.messageId, world, pass);
          if answer.Found? {
            ReportsGrow(results, Delivered(request.article, id, answer.data));
            results := results + [Delivered(request.article, id, answer.data)];
          } else {
            pending := pending + [request.(tried := request.tried + [id])];
          }
        }
        forall k | 0 <= k < |servers|
          ensures servers[k].penalized <==> was[k].penalized || PenalizedAt(ids, world, before, k)
        {
          PenalizedAtIs(ids, world, before, k);
        }
        pass := pass + 1;
      }
      RunUnfolds(ids, world, end);
      PenalizesUnfolds(ids, world, end);
      left := [];
    }
  }

  lemma RunUnfolds(ids: seq<Text>, world: World, s: Queue)
    ensures Run(ids, world, s)
         == if s.pending == [] || world.stops(s.passes) then s else Run(ids, world, Pass(ids, world, s))
  {
  }
}
