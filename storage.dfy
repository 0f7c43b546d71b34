/** The PostgreSQL store of `mulerun_crawl/storage/database.py`: the
    `agents` table as a map from `link` to its row, the `rank_history` table
    as an append-only sequence of samples. `save_agents` reconciles a fresh
    batch against the table (soft-deleting what disappeared, upserting what
    was seen, appending one history sample per batch element); the read
    queries filter, sort and count that state. */
module Storage {
  import opened Common

  /** One element of the batch handed to `save_agents`. */
  datatype AgentRecord = AgentRecord(
    link: string,
    name: string,
    description: Option<string>,
    avatarUrl: Option<string>,
    price: Option<string>,
    author: Option<string>,
    rank: int)

  /** A row of the `agents` table. */
  datatype AgentRow = AgentRow(
    link: string,
    name: string,
    description: Option<string>,
    avatarUrl: Option<string>,
    price: Option<string>,
    author: Option<string>,
    rank: int,
    isActive: bool,
    firstSeen: int,
    lastUpdated: int)

  /** A row of the `rank_history` table. */
  datatype Sample = Sample(agentLink: string, rank: int, crawlTime: int)

  /** What `get_rank_history` returns per sample. */
  datatype RankPoint = RankPoint(rank: int, crawlTime: int)

  /** What `get_statistics` returns. */
  datatype Statistics = Statistics(
    activeAgents: nat,
    inactiveAgents: nat,
    totalCrawls: nat,
    latestCrawl: Option<int>)

  type Table = map<string, AgentRow>

  function RankOf(row: AgentRow): int { row.rank }
  function SampleTime(s: Sample): int { s.crawlTime }
  function PointTime(p: RankPoint): int { p.crawlTime }

  /** Every row is stored under its own link, and every history sample
      refers to a stored row (the `REFERENCES agents(link)` constraint). */
  ghost predicate TableInvariant(agents: Table, history: seq<Sample>) {
    && (forall l :: l in agents ==> agents[l].link == l)
    && (forall i :: 0 <= i < |history| ==> history[i].agentLink in agents)
  }

  // ---------------------------------------------------------------------
  // The sets save_agents works with

  function BatchLinks(batch: seq<AgentRecord>): set<string> {
    set i | 0 <= i < |batch| :: batch[i].link
  }

  function ActiveLinks(agents: Table): set<string> {
    set l | l in agents && agents[l].isActive
  }

  function InactiveLinks(agents: Table): set<string> {
    set l | l in agents && !agents[l].isActive
  }

  /** The links marked inactive by a save: active before, absent from the
      batch. These are the agents the run "removed". */
  function Disappeared(agents: Table, batch: seq<AgentRecord>): set<string> {
    ActiveLinks(agents) - BatchLinks(batch)
  }

  /** The links a save inserts: in the batch, never stored before
      (a reactivated link is not among them). */
  ghost function Added(agents: Table, batch: seq<AgentRecord>): set<string> {
    BatchLinks(batch) - agents.Keys
  }

  lemma BatchLinksSnoc(batch: seq<AgentRecord>)
    requires batch != []
    ensures BatchLinks(batch) == BatchLinks(batch[..|batch| - 1]) + {batch[|batch| - 1].link}
  {
    var init := batch[..|batch| - 1];
    forall l | l in BatchLinks(batch)
      ensures l in BatchLinks(init) + {batch[|batch| - 1].link}
    {
      var i :| 0 <= i < |batch| && batch[i].link == l;
      if i < |batch| - 1 {
        assert init[i].link == l;
      }
    }
    forall l | l in BatchLinks(init) ensures l in BatchLinks(batch) {
      var i :| 0 <= i < |init| && init[i].link == l;
      assert batch[i].link == l;
    }
  }

  // ---------------------------------------------------------------------
  // The state transition of save_agents, as functions of the old tables

  /** The bulk `UPDATE ... SET is_active = FALSE, last_updated = t`. */
  function Deactivate(agents: Table, gone: set<string>, t: int): Table {
    map l | l in agents :: if l in gone then agents[l].(isActive := false, lastUpdated := t) else agents[l]
  }

  /** The row `INSERT ... ON CONFLICT (link) DO UPDATE` leaves for `a`:
      a fresh row (its `first_seen` is the column default, the database
      clock `dbNow`) or the old row with every mutable field overwritten. */
  function Upserted(agents: Table, a: AgentRecord, t: int, dbNow: int): AgentRow {
    if a.link in agents then
      agents[a.link].(name := a.name, description := a.description, avatarUrl := a.avatarUrl,
                      price := a.price, author := a.author, rank := a.rank,
                      isActive := true, lastUpdated := t)
    else
      AgentRow(a.link, a.name, a.description, a.avatarUrl, a.price, a.author, a.rank, true, dbNow, t)
  }

  function UpsertAll(agents: Table, batch: seq<AgentRecord>, t: int, dbNow: int): Table
    decreases |batch|
  {
    if batch == [] then agents
    else
      var before := UpsertAll(agents, batch[..|batch| - 1], t, dbNow);
      var a := batch[|batch| - 1];
      before[a.link := Upserted(before, a, t, dbNow)]
  }

  lemma UpsertAllStep(agents: Table, batch: seq<AgentRecord>, i: int, t: int, dbNow: int)
    requires 0 <= i < |batch|
    ensures var before := UpsertAll(agents, batch[..i], t, dbNow);
      UpsertAll(agents, batch[..i + 1], t, dbNow) == before[batch[i].link := Upserted(before, batch[i], t, dbNow)]
  {
    assert batch[..i + 1][..i] == batch[..i];
  }

  /** The `agents` table after `save_agents(batch, t)`. */
  function SavedTable(agents: Table, batch: seq<AgentRecord>, t: int, dbNow: int): Table {
    UpsertAll(Deactivate(agents, Disappeared(agents, batch), t), batch, t, dbNow)
  }

  /** The history rows `save_agents(batch, t)` appends, in batch order. */
  function Samples(batch: seq<AgentRecord>, t: int): (s: seq<Sample>)
    ensures |s| == |batch|
    ensures forall i :: 0 <= i < |batch| ==> s[i] == Sample(batch[i].link, batch[i].rank, t)
  {
    if batch == [] then [] else Samples(batch[..|batch| - 1], t) + [Sample(batch[|batch| - 1].link, batch[|batch| - 1].rank, t)]
  }

  lemma SamplesStep(history: seq<Sample>, batch: seq<AgentRecord>, i: int, t: int)
    requires 0 <= i < |batch|
    ensures history + Samples(batch[..i + 1], t) == (history + Samples(batch[..i], t)) + [Sample(batch[i].link, batch[i].rank, t)]
  {
    assert batch[..i + 1][..i] == batch[..i];
    assert Samples(batch[..i + 1], t) == Samples(batch[..i], t) + [Sample(batch[i].link, batch[i].rank, t)];
  }


  /** `batch[i]` is the last element of the batch carrying link `l`. */
  ghost predicate IsLastOccurrence(batch: seq<AgentRecord>, i: int, l: string) {
    0 <= i < |batch| && batch[i].link == l && forall j :: i < j < |batch| ==> batch[j].link != l
  }

  /** The row carries every field the upsert writes from `a`. */
  ghost predicate CarriesFields(row: AgentRow, a: AgentRecord) {
    && row.name == a.name && row.description == a.description && row.avatarUrl == a.avatarUrl
    && row.price == a.price && row.author == a.author && row.rank == a.rank
  }

  /** What the sequence of upserts does to one link. */
  lemma {:induction false} UpsertAllAt(agents: Table, batch: seq<AgentRecord>, t: int, dbNow: int, l: string)
    ensures var r := UpsertAll(agents, batch, t, dbNow);
      && (l in r <==> l in agents || l in BatchLinks(batch))
      && (l !in BatchLinks(batch) && l in agents ==> r[l] == agents[l])
      && (l in BatchLinks(batch) ==>
            && r[l].isActive && r[l].lastUpdated == t
            && r[l].firstSeen == (if l in agents then agents[l].firstSeen else dbNow)
            && r[l].link == (if l in agents then agents[l].link else l))
      && (forall i :: IsLastOccurrence(batch, i, l) ==> CarriesFields(r[l], batch[i]))
    decreases |batch|
  {
    if batch != [] {
      var init := batch[..|batch| - 1];
      var a := batch[|batch| - 1];
      UpsertAllAt(agents, init, t, dbNow, l);
      BatchLinksSnoc(batch);
      forall i | IsLastOccurrence(batch, i, l)
        ensures CarriesFields(UpsertAll(agents, batch, t, dbNow)[l], batch[i])
      {
        if i < |batch| - 1 {
          assert IsLastOccurrence(init, i, l);
        }
      }
    }
  }

  // ---------------------------------------------------------------------
  // Properties of the reconciliation

  /** No row is ever deleted: the stored links afterwards are the old ones
      plus the batch's. */
  lemma SaveKeepsEveryRow(agents: Table, batch: seq<AgentRecord>, t: int, dbNow: int)
    ensures SavedTable(agents, batch, t, dbNow).Keys == agents.Keys + BatchLinks(batch)
  {
    var d := Deactivate(agents, Disappeared(agents, batch), t);
    forall l ensures l in SavedTable(agents, batch, t, dbNow) <==> l in agents || l in BatchLinks(batch) {
      UpsertAllAt(d, batch, t, dbNow, l);
    }
  }

  /** Every batch link ends up active and stamped with the crawl time,
      whatever its prior state; its `first_seen` is kept if it was stored
      before and is the insertion time otherwise. */
  lemma SaveActivatesBatch(agents: Table, batch: seq<AgentRecord>, t: int, dbNow: int, l: string)
    requires l in BatchLinks(batch)
    ensures var r := SavedTable(agents, batch, t, dbNow);
      && l in r && r[l].isActive && r[l].lastUpdated == t
      && r[l].firstSeen == (if l in agents then agents[l].firstSeen else dbNow)
  {
    UpsertAllAt(Deactivate(agents, Disappeared(agents, batch), t), batch, t, dbNow, l);
  }

  /** The last batch element with a given link decides that row's fields
      (earlier duplicates are overwritten). */
  lemma SaveLastOccurrenceWins(agents: Table, batch: seq<AgentRecord>, t: int, dbNow: int, i: int)
    requires 0 <= i < |batch| && IsLastOccurrence(batch, i, batch[i].link)
    ensures var r := SavedTable(agents, batch, t, dbNow);
      batch[i].link in r && CarriesFields(r[batch[i].link], batch[i])
  {
    UpsertAllAt(Deactivate(agents, Disappeared(agents, batch), t), batch, t, dbNow, batch[i].link);
  }

  /** A link missing from the batch is soft-deleted if it was active (only
      `is_active` and `last_updated` change) and untouched otherwise. */
  lemma SaveHandlesMissing(agents: Table, batch: seq<AgentRecord>, t: int, dbNow: int, l: string)
    requires l in agents && l !in BatchLinks(batch)
    ensures var r := SavedTable(agents, batch, t, dbNow);
      && l in r
      && (agents[l].isActive ==> r[l] == agents[l].(isActive := false, lastUpdated := t))
      && (!agents[l].isActive ==> r[l] == agents[l])
  {
    UpsertAllAt(Deactivate(agents, Disappeared(agents, batch), t), batch, t, dbNow, l);
  }

  /** After a save the active rows are exactly the batch's links. */
  lemma SaveActiveIsBatch(agents: Table, batch: seq<AgentRecord>, t: int, dbNow: int)
    ensures ActiveLinks(SavedTable(agents, batch, t, dbNow)) == BatchLinks(batch)
  {
    var r := SavedTable(agents, batch, t, dbNow);
    forall l ensures l in ActiveLinks(r) <==> l in BatchLinks(batch) {
      UpsertAllAt(Deactivate(agents, Disappeared(agents, batch), t), batch, t, dbNow, l);
    }
  }

  /** The removed links are exactly the rows a save switched from active to
      inactive, and the added links exactly the rows it inserted. */
  lemma SaveRemovedAndAdded(agents: Table, batch: seq<AgentRecord>, t: int, dbNow: int, l: string)
    ensures var r := SavedTable(agents, batch, t, dbNow);
      && (l in Disappeared(agents, batch) <==> l in agents && agents[l].isActive && l in r && !r[l].isActive)
      && (l in Added(agents, batch) <==> l in r && l !in agents)
  {
    UpsertAllAt(Deactivate(agents, Disappeared(agents, batch), t), batch, t, dbNow, l);
  }

  lemma SaveKeepsInvariant(agents: Table, history: seq<Sample>, batch: seq<AgentRecord>, t: int, dbNow: int)
    requires TableInvariant(agents, history)
    ensures TableInvariant(SavedTable(agents, batch, t, dbNow), history + Samples(batch, t))
  {
    var r := SavedTable(agents, batch, t, dbNow);
    var d := Deactivate(agents, Disappeared(agents, batch), t);
    forall l | l in r ensures r[l].link == l {
      UpsertAllAt(d, batch, t, dbNow, l);
    }
    SaveKeepsEveryRow(agents, batch, t, dbNow);
    var h := history + Samples(batch, t);
    forall i | 0 <= i < |h| ensures h[i].agentLink in r {
      if i >= |history| {
        assert h[i].agentLink == batch[i - |history|].link;
        assert batch[i - |history|].link in BatchLinks(batch);
      }
    }
  }

  // ---------------------------------------------------------------------
  // History filtering (the WHERE clause of get_rank_history)

  function SamplesOf(history: seq<Sample>, link: string): (r: seq<Sample>)
    ensures forall k :: 0 <= k < |r| ==> r[k] in history && r[k].agentLink == link
  {
    if history == [] then []
    else
      var last := history[|history| - 1];
      SamplesOf(history[..|history| - 1], link) + (if last.agentLink == link then [last] else [])
  }

  lemma {:induction false} SamplesOfAppend(h1: seq<Sample>, h2: seq<Sample>, link: string)
    ensures SamplesOf(h1 + h2, link) == SamplesOf(h1, link) + SamplesOf(h2, link)
    decreases |h2|
  {
    if h2 != [] {
      var h := h1 + h2;
      assert h[..|h| - 1] == h1 + h2[..|h2| - 1];
      SamplesOfAppend(h1, h2[..|h2| - 1], link);
    } else {
      assert h1 + h2 == h1;
    }
  }

  lemma {:induction false} SamplesOfBatch(batch: seq<AgentRecord>, t: int, link: string)
    ensures (SamplesOf(Samples(batch, t), link) == []) <==> link !in BatchLinks(batch)
    decreases |batch|
  {
    if batch != [] {
      var init := batch[..|batch| - 1];
      var s := Samples(batch, t);
      assert s[..|s| - 1] == Samples(init, t);
      SamplesOfBatch(init, t, link);
      BatchLinksSnoc(batch);
    }
  }

  /** A save appends samples exactly for the batch's links, all stamped
      with the crawl time; the history of any other link is unchanged. */
  lemma SaveHistoryOf(history: seq<Sample>, batch: seq<AgentRecord>, t: int, link: string)
    ensures var appended := SamplesOf(Samples(batch, t), link);
      && SamplesOf(history + Samples(batch, t), link) == SamplesOf(history, link) + appended
      && (appended == [] <==> link !in BatchLinks(batch))
      && (forall k :: 0 <= k < |appended| ==> appended[k].crawlTime == t)
  {
    SamplesOfAppend(history, Samples(batch, t), link);
    SamplesOfBatch(batch, t, link);
  }

  function Points(samples: seq<Sample>): (r: seq<RankPoint>)
    ensures |r| == |samples|
    ensures forall k :: 0 <= k < |r| ==> r[k] == RankPoint(samples[k].rank, samples[k].crawlTime)
  {
    seq(|samples|, k requires 0 <= k < |samples| => RankPoint(samples[k].rank, samples[k].crawlTime))
  }

  lemma {:induction false} SamplesOfSorted(history: seq<Sample>, link: string)
    requires SortedBy(history, SampleTime)
    ensures SortedBy(SamplesOf(history, link), SampleTime)
    decreases |history|
  {
    if history != [] {
      var init := history[..|history| - 1];
      assert SortedBy(init, SampleTime);
      SamplesOfSorted(init, link);
      var s := SamplesOf(init, link);
      forall k | 0 <= k < |s| ensures SampleTime(s[k]) <= SampleTime(history[|history| - 1]) {
        var m :| 0 <= m < |init| && init[m] == s[k];
      }
    }
  }

  /** Saving with a crawl time no earlier than any recorded one keeps the
      history in crawl-time order. */
  lemma SaveKeepsHistoryOrdered(history: seq<Sample>, batch: seq<AgentRecord>, t: int)
    requires SortedBy(history, SampleTime)
    requires forall k :: 0 <= k < |history| ==> history[k].crawlTime <= t
    ensures SortedBy(history + Samples(batch, t), SampleTime)
  {
  }

  // ---------------------------------------------------------------------
  // Statistics helpers

  function CrawlTimes(history: seq<Sample>): set<int> {
    set k | 0 <= k < |history| :: history[k].crawlTime
  }

  /** `MAX(crawl_time)`: none on an empty history. */
  function LatestCrawl(history: seq<Sample>): (r: Option<int>)
    ensures r.None? <==> history == []
    ensures r.Some? ==> r.value in CrawlTimes(history)
    ensures r.Some? ==> forall k :: 0 <= k < |history| ==> history[k].crawlTime <= r.value
  {
    if history == [] then None
    else
      var init := history[..|history| - 1];
      var t := history[|history| - 1].crawlTime;
      match LatestCrawl(init)
      case None => Some(t)
      case Some(m) => Some(if m < t then t else m)
  }

  lemma ActivePlusInactive(agents: Table)
    ensures |ActiveLinks(agents)| + |InactiveLinks(agents)| == |agents|
  {
    var a, i := ActiveLinks(agents), InactiveLinks(agents);
    assert a + i == agents.Keys;
    assert a * i == {};
  }

  /** The statistics after a non-empty save: as many active agents as
      distinct batch links, every stored row counted once, and a latest
      crawl no earlier than this one. */
  lemma StatisticsAfterSave(agents: Table, history: seq<Sample>, batch: seq<AgentRecord>, t: int, dbNow: int)
    requires batch != []
    ensures var r := SavedTable(agents, batch, t, dbNow);
      var h := history + Samples(batch, t);
      && |ActiveLinks(r)| == |BatchLinks(batch)|
      && |ActiveLinks(r)| + |InactiveLinks(r)| == |agents.Keys + BatchLinks(batch)|
      && t in CrawlTimes(h)
      && LatestCrawl(h).Some? && t <= LatestCrawl(h).value
  {
    var r := SavedTable(agents, batch, t, dbNow);
    var h := history + Samples(batch, t);
    SaveActiveIsBatch(agents, batch, t, dbNow);
    SaveKeepsEveryRow(agents, batch, t, dbNow);
    ActivePlusInactive(r);
    assert h[|history|].crawlTime == t;
  }

  // ---------------------------------------------------------------------
  // The store

  /** Number of rows `LIMIT n` leaves; a missing or zero limit is no cap. */
  function Capped(count: nat, limit: Option<nat>): (k: nat)
    ensures k <= count
    ensures limit.None? || limit.value == 0 ==> k == count
    ensures limit.Some? && limit.value > 0 ==> k == if limit.value < count then limit.value else count
  {
    if limit.Some? && limit.value > 0 && limit.value < count then limit.value else count
  }

  /** `found` holds, once each, the active rows whose links are no longer
      `remaining`. */
  ghost predicate CollectedActive(agents: Table, remaining: set<string>, found: seq<AgentRow>) {
    && (forall k :: 0 <= k < |found| ==> found[k].link in ActiveLinks(agents) - remaining && found[k] == agents[found[k].link])
    && (forall l :: l in ActiveLinks(agents) - remaining ==> agents[l] in found)
    && (forall x :: multiset(found)[x] <= 1)
    && |found| == |ActiveLinks(agents) - remaining|
  }

  lemma CollectStep(agents: Table, remaining: set<string>, found: seq<AgentRow>, l: string)
    requires l in remaining && remaining <= agents.Keys && agents[l].link == l
    requires CollectedActive(agents, remaining, found)
    ensures CollectedActive(agents, remaining - {l}, if agents[l].isActive then found + [agents[l]] else found)
  {
    var done := ActiveLinks(agents) - remaining;
    if agents[l].isActive {
      assert agents[l] !in multiset(found);
      AppendFresh(found, agents[l]);
      assert ActiveLinks(agents) - (remaining - {l}) == done + {l};
    } else {
      assert ActiveLinks(agents) - (remaining - {l}) == done;
    }
  }

  /** The first `n` rows of the active rows sorted by rank are active rows,
      each once, and none left out ranks better than one kept. */
  lemma RankedPrefix(agents: Table, found: seq<AgentRow>, sorted: seq<AgentRow>, n: nat)
    requires forall x :: x in found ==> x.link in ActiveLinks(agents) && x == agents[x.link]
    requires forall l :: l in ActiveLinks(agents) ==> agents[l] in found
    requires forall x :: multiset(found)[x] <= 1
    requires multiset(sorted) == multiset(found) && SortedBy(sorted, RankOf) && n <= |sorted|
    ensures var rows := sorted[..n];
      && (forall k :: 0 <= k < |rows| ==> rows[k].link in ActiveLinks(agents) && rows[k] == agents[rows[k].link])
      && (forall j, k :: 0 <= j < k < |rows| ==> rows[j].link != rows[k].link)
      && (forall l, k :: l in ActiveLinks(agents) && agents[l] !in rows && 0 <= k < |rows| ==> rows[k].rank <= agents[l].rank)
  {
    var rows := sorted[..n];
    SameElements(found, sorted);
    NoDuplicates(sorted);
    forall k | 0 <= k < |rows| ensures rows[k].link in ActiveLinks(agents) && rows[k] == agents[rows[k].link] {
      assert rows[k] == sorted[k] && sorted[k] in found;
    }
    forall j, k | 0 <= j < k < |rows| ensures rows[j].link != rows[k].link {
      assert rows[j] == sorted[j] && rows[k] == sorted[k];
      assert sorted[j] in found && sorted[k] in found;
    }
    forall l, k | l in ActiveLinks(agents) && agents[l] !in rows && 0 <= k < |rows|
      ensures rows[k].rank <= agents[l].rank
    {
      var m :| 0 <= m < |sorted| && sorted[m] == agents[l];
      assert m >= n;
      assert RankOf(sorted[k]) <= RankOf(sorted[m]);
    }
  }

  class DatabaseStorage {
    var agents: Table
    var rankHistory: seq<Sample>

    ghost predicate Valid()
      reads this
    {
      TableInvariant(agents, rankHistory)
    }

    /** Opens the store on whatever the two tables already hold. */
    constructor (existing: Table, history: seq<Sample>)
      requires TableInvariant(existing, history)
      ensures Valid() && agents == existing && rankHistory == history
    {
      agents := existing;
      rankHistory := history;
    }

    /** `save_agents(batch, crawlTime)`, run as one transaction; `dbNow` is
        the database clock that fills `first_seen` on insertion. */
    method SaveAgents(batch: seq<AgentRecord>, crawlTime: int, dbNow: int)
      requires Valid()
      modifies this
      ensures Valid()
      ensures agents == SavedTable(old(agents), batch, crawlTime, dbNow)
      ensures rankHistory == old(rankHistory) + Samples(batch, crawlTime)
    {
      var existingLinks := set l | l in agents && agents[l].isActive;
      var currentLinks := set i | 0 <= i < |batch| :: batch[i].link;
      var disappeared := existingLinks - currentLinks;
      if disappeared != {} {
        agents := map l | l in agents :: if l in disappeared then agents[l].(isActive := false, lastUpdated := crawlTime) else agents[l];
      }
      ghost var deactivated := Deactivate(old(agents), Disappeared(old(agents), batch), crawlTime);
      assert agents == deactivated;
      var i := 0;
      while i < |batch|
        invariant 0 <= i <= |batch|
        invariant agents == UpsertAll(deactivated, batch[..i], crawlTime, dbNow)
        invariant rankHistory == old(rankHistory) + Samples(batch[..i], crawlTime)
      {
        var a := batch[i];
        UpsertAllStep(deactivated, batch, i, crawlTime, dbNow);
        SamplesStep(old(rankHistory), batch, i, crawlTime);
        // one INSERT ... ON CONFLICT (link) DO UPDATE statement
        agents := agents[a.link := Upserted(agents, a, crawlTime, dbNow)];
        rankHistory := rankHistory + [Sample(a.link, a.rank, crawlTime)];
        i := i + 1;
      }
      assert batch[..i] == batch;
      SaveKeepsInvariant(old(agents), old(rankHistory), batch, crawlTime, dbNow);
    }

    /** Reads every active row once, in no particular order. */
    method CollectActive() returns (found: seq<AgentRow>)
      requires Valid()
      ensures forall x :: x in found ==> x.link in ActiveLinks(agents) && x == agents[x.link]
      ensures forall l :: l in ActiveLinks(agents) ==> agents[l] in found
      ensures forall x :: multiset(found)[x] <= 1
      ensures |found| == |ActiveLinks(agents)|
    {
      found := [];
      var remaining := agents.Keys;
      while remaining != {}
        invariant remaining <= agents.Keys
        invariant CollectedActive(agents, remaining, found)
        decreases remaining
      {
        var l :| l in remaining;
        CollectStep(agents, remaining, found, l);
        if agents[l].isActive {
          found := found + [agents[l]];
        }
        remaining := remaining - {l};
      }
      assert ActiveLinks(agents) - remaining == ActiveLinks(agents);
    }
    /** `get_active_agents(limit)`: active rows only, ascending rank, at
        most `limit` of them when `limit` is given and non-zero; the rows
        cut off by the limit rank no better than those returned. */
    method GetActiveAgents(limit: Option<nat>) returns (rows: seq<AgentRow>)
      requires Valid()
      ensures forall k :: 0 <= k < |rows| ==> rows[k].link in ActiveLinks(agents) && rows[k] == agents[rows[k].link]
      ensures forall j, k :: 0 <= j < k < |rows| ==> rows[j].link != rows[k].link
      ensures SortedBy(rows, RankOf)
      ensures |rows| == Capped(|ActiveLinks(agents)|, limit)
      ensures forall l, k :: l in ActiveLinks(agents) && agents[l] !in rows && 0 <= k < |rows| ==> rows[k].rank <= agents[l].rank
    {
      var found := CollectActive();
      var sorted := SortBy(found, RankOf);
      var n := Capped(|sorted|, limit);
      rows := sorted[..n];
      RankedPrefix(agents, found, sorted, n);
    }

    /** `get_rank_history(link)`: that link's samples only, as a
        permutation of them ordered by ascending crawl time. */
    function GetRankHistory(link: string): (r: seq<RankPoint>)
      reads this
      ensures SortedBy(r, PointTime)
      ensures multiset(r) == multiset(Points(SamplesOf(rankHistory, link)))
    {
      SortBy(Points(SamplesOf(rankHistory, link)), PointTime)
    }

    /** `get_statistics()`. */
    function GetStatistics(): (s: Statistics)
      reads this
      ensures s.activeAgents + s.inactiveAgents == |agents|
      ensures s.activeAgents == |ActiveLinks(agents)|
      ensures s.totalCrawls == |CrawlTimes(rankHistory)|
      ensures s.latestCrawl.None? <==> rankHistory == []
      ensures s.latestCrawl.Some? ==> s.latestCrawl.value in CrawlTimes(rankHistory)
      ensures s.latestCrawl.Some? ==> forall k :: 0 <= k < |rankHistory| ==> rankHistory[k].crawlTime <= s.latestCrawl.value
    {
      ActivePlusInactive(agents);
      Statistics(|ActiveLinks(agents)|, |InactiveLinks(agents)|, |CrawlTimes(rankHistory)|, LatestCrawl(rankHistory))
    }
  }

  /** When the history is already in crawl-time order (every save used a
      clock that does not go back), `get_rank_history` lists the link's
      samples in the order they were recorded. */
  lemma RankHistoryInRecordOrder(store: DatabaseStorage, link: string)
    requires SortedBy(store.rankHistory, SampleTime)
    ensures store.GetRankHistory(link) == Points(SamplesOf(store.rankHistory, link))
  {
    SamplesOfSorted(store.rankHistory, link);
    SortByOfSorted(Points(SamplesOf(store.rankHistory, link)), PointTime);
  }
}
