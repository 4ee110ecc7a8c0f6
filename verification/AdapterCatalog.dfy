/** The client's catalog: snapshots and events merged only if newer. */
module AdapterCatalog {
  // The network between the daemon and the client reorders and duplicates.

  import opened CharClasses
  import opened Registry
  import opened RegistryRuns

  datatype Source = Fallback | Probed

  datatype AdapterInfo = AdapterInfo(
    id: string,
    name: string,
    installed: bool,
    models: Models,
    revision: Option<nat>,
    source: Option<Source>,
    capable: bool)

  type Catalog = map<string, AdapterInfo>

  function IsNewer(current: Option<nat>, incoming: Option<nat>): bool {
    incoming.Some? && (current.None? || incoming.value > current.value)
  }

  /** A snapshot entry merged in: identity and status are taken, models only when newer. */
  function Merged(byId: Catalog, incoming: AdapterInfo): Catalog {
    if incoming.id !in byId then byId[incoming.id := incoming]
    else
      var current := byId[incoming.id];
      if IsNewer(current.revision, incoming.revision) then byId[incoming.id := incoming]
      else
        byId[incoming.id := incoming.(models := current.models, revision := current.revision, source := current.source)]
  }

  function MergedAll(byId: Catalog, list: seq<AdapterInfo>): Catalog
    decreases |list|
  {
    if list == [] then byId else MergedAll(Merged(byId, list[0]), list[1..])
  }

  /** An event applied: `installed` always, models only when newer; an unknown adapter gets a placeholder. */
  function WithEvent(byId: Catalog, id: string, models: Models, revision: nat, installed: Option<bool>): Catalog {
    if id !in byId then
      byId[id := AdapterInfo(id, id, if installed.Some? then installed.value else true, models, Some(revision),
                             Some(Probed), false)]
    else
      var current := byId[id];
      var known := if installed.Some? then current.(installed := installed.value) else current;
      byId[id := if IsNewer(current.revision, Some(revision))
                 then known.(models := models, revision := Some(revision), source := Some(Probed))
                 else known]
  }

  function WithoutBaseline(byId: Catalog): Catalog {
    map id | id in byId :: byId[id].(revision := None)
  }

  /** The store. */
  class AdaptersStore {
    var byId: Catalog

    constructor ()
      ensures byId == map[]
    {
      byId := map[];
    }

    method SeedAdapters(list: seq<AdapterInfo>)
      modifies this
      ensures byId == MergedAll(old(byId), list)
    {
      var next := byId;
      assert list[0..] == list;
      for i := 0 to |list|
        invariant MergedAll(next, list[i..]) == MergedAll(old(byId), list)
      {
        assert list[i..][1..] == list[i + 1..];
        var incoming := list[i];
        if incoming.id !in next {
          next := next[incoming.id := incoming];
          continue;
        }
        var current := next[incoming.id];
        var takeModels := IsNewer(current.revision, incoming.revision);
        next := next[incoming.id := AdapterInfo(
          incoming.id,
          incoming.name,
          incoming.installed,
          if takeModels then incoming.models else current.models,
          if takeModels then incoming.revision else current.revision,
          if takeModels then incoming.source else current.source,
          incoming.capable)];
      }
      byId := next;
    }

    method ApplyAdapterModels(id: string, models: Models, revision: nat, installed: Option<bool>)
      modifies this
      ensures byId == WithEvent(old(byId), id, models, revision, installed)
    {
      if id in byId {
        var current := byId[id];
        var sameStatus := installed.None? || installed.value == current.installed;
        var known := if sameStatus then current else current.(installed := installed.value);
        if !IsNewer(current.revision, Some(revision)) {
          byId := if sameStatus then byId else byId[id := known];
          return;
        }
        byId := byId[id := known.(models := models, revision := Some(revision), source := Some(Probed))];
        return;
      }
      byId := byId[id := AdapterInfo(id, id, if installed.Some? then installed.value else true, models,
                                     Some(revision), Some(Probed), false)];
    }

    /** Drops the revision baseline; the models stay visible. */
    method ResetRevisionBaseline()
      modifies this
      ensures byId == WithoutBaseline(old(byId))
    {
      var next: Catalog := map[];
      var left := byId.Keys;
      while left != {}
        invariant left <= byId.Keys && next.Keys == byId.Keys - left
        invariant forall id :: id in next ==> next[id] == byId[id].(revision := None)
        decreases left
      {
        var id :| id in left;
        next := next[id := byId[id].(revision := None)];
        left := left - {id};
      }
      byId := next;
    }
  }

  // ----- deliveries

  datatype Message =
    | Listing(list: seq<AdapterInfo>)
    | Update(id: string, models: Models, revision: nat, installed: Option<bool>)

  function Deliver(byId: Catalog, msg: Message): Catalog {
    match msg
    case Listing(list) => MergedAll(byId, list)
    case Update(id, models, revision, installed) => WithEvent(byId, id, models, revision, installed)
  }

  function DeliverAll(byId: Catalog, msgs: seq<Message>): Catalog
    decreases |msgs|
  {
    if msgs == [] then byId else DeliverAll(Deliver(byId, msgs[0]), msgs[1..])
  }

  /** What the daemon published, by adapter and revision. */
  type History = map<(string, nat), Models>

  ghost predicate EntryFrom(e: AdapterInfo, pub: History) {
    e.revision.Some? ==> (e.id, e.revision.value) in pub && pub[(e.id, e.revision.value)] == e.models
  }

  /** Every revision the message carries comes with the models the daemon published under it. */
  ghost predicate MessageFrom(msg: Message, pub: History) {
    match msg
    case Listing(list) => forall e :: e in list ==> EntryFrom(e, pub)
    case Update(id, models, revision, _) => (id, revision) in pub && pub[(id, revision)] == models
  }

  function Later(a: Option<nat>, b: Option<nat>): Option<nat> {
    if IsNewer(a, b) then b else a
  }

  /** The highest revision a listing carries for an adapter. */
  function HighestIn(list: seq<AdapterInfo>, id: string): Option<nat> {
    if list == [] then None
    else Later(if list[0].id == id then list[0].revision else None, HighestIn(list[1..], id))
  }

  function HighestOf(msg: Message, id: string): Option<nat> {
    match msg
    case Listing(list) => HighestIn(list, id)
    case Update(id', _, revision, _) => if id' == id then Some(revision) else None
  }

  /** The highest revision delivered for an adapter. */
  function Highest(msgs: seq<Message>, id: string): Option<nat> {
    if msgs == [] then None else Later(HighestOf(msgs[0], id), Highest(msgs[1..], id))
  }

  function RevisionOf(byId: Catalog, id: string): Option<nat> {
    if id in byId then byId[id].revision else None
  }

  /** The client shows, for a revision, what the daemon published under it. */
  ghost predicate Faithful(byId: Catalog, pub: History) {
    forall id :: id in byId ==>
      && byId[id].id == id
      && (byId[id].revision.Some? ==>
            (id, byId[id].revision.value) in pub && pub[(id, byId[id].revision.value)] == byId[id].models)
  }

  lemma {:induction false} MergeRaises(byId: Catalog, list: seq<AdapterInfo>, id: string)
    ensures RevisionOf(MergedAll(byId, list), id) == Later(RevisionOf(byId, id), HighestIn(list, id))
    decreases |list|
  {
    if list != [] {
      MergeRaises(Merged(byId, list[0]), list[1..], id);
    }
  }

  /** For every catalog and every list of messages the revision is the highest there was or came. */
  lemma {:induction false} DeliverRaises(byId: Catalog, msgs: seq<Message>, id: string)
    ensures RevisionOf(DeliverAll(byId, msgs), id) == Later(RevisionOf(byId, id), Highest(msgs, id))
    decreases |msgs|
  {
    hide MergedAll, HighestIn;
    if msgs != [] {
      if msgs[0].Listing? {
        MergeRaises(byId, msgs[0].list, id);
      }
      DeliverRaises(Deliver(byId, msgs[0]), msgs[1..], id);
    }
  }

  lemma {:induction false} MergeAllKeeps(byId: Catalog, list: seq<AdapterInfo>, pub: History)
    requires Faithful(byId, pub) && forall e :: e in list ==> EntryFrom(e, pub)
    ensures Faithful(MergedAll(byId, list), pub)
    decreases |list|
  {
    hide Merged, Faithful, EntryFrom;
    if list != [] {
      assert list[0] in list && forall e :: e in list[1..] ==> e in list;
      MergeKeeps(byId, list[0], pub);
      MergeAllKeeps(Merged(byId, list[0]), list[1..], pub);
    }
  }

  lemma MergeKeeps(byId: Catalog, e: AdapterInfo, pub: History)
    requires Faithful(byId, pub) && EntryFrom(e, pub)
    ensures Faithful(Merged(byId, e), pub)
  {
  }

  lemma {:induction false} DeliverAllKeeps(byId: Catalog, msgs: seq<Message>, pub: History)
    requires Faithful(byId, pub) && forall m :: m in msgs ==> MessageFrom(m, pub)
    ensures Faithful(DeliverAll(byId, msgs), pub)
    decreases |msgs|
  {
    hide Deliver, Faithful, MessageFrom;
    if msgs != [] {
      assert msgs[0] in msgs && forall m :: m in msgs[1..] ==> m in msgs;
      DeliverKeeps(byId, msgs[0], pub);
      DeliverAllKeeps(Deliver(byId, msgs[0]), msgs[1..], pub);
    }
  }

  lemma DeliverKeeps(byId: Catalog, msg: Message, pub: History)
    requires Faithful(byId, pub) && MessageFrom(msg, pub)
    ensures Faithful(Deliver(byId, msg), pub)
  {
    if msg.Listing? {
      MergeAllKeeps(byId, msg.list, pub);
    }
  }

  /** Entries are filed under their own id. */
  ghost predicate Filed(byId: Catalog) {
    forall id :: id in byId ==> byId[id].id == id
  }

  /**
   * Since the last baseline reset, whatever the daemon sent and however the
   * network reordered or repeated it, an adapter's revision is the highest one
   * delivered, and its models are those the daemon published under it.
   */
  lemma CatalogConverges(byId: Catalog, msgs: seq<Message>, pub: History, id: string)
    requires Filed(byId) && forall m :: m in msgs ==> MessageFrom(m, pub)
    ensures var end := DeliverAll(WithoutBaseline(byId), msgs);
            && RevisionOf(end, id) == Highest(msgs, id)
            && (Highest(msgs, id).Some? ==>
                  id in end && (id, Highest(msgs, id).value) in pub
                  && end[id].models == pub[(id, Highest(msgs, id).value)])
  {
    hide DeliverAll, Highest, MessageFrom;
    var start := WithoutBaseline(byId);
    assert Faithful(start, pub);
    DeliverAllKeeps(start, msgs, pub);
    DeliverRaises(start, msgs, id);
  }

  /** Delivering more, whatever it is, never takes a revision back. */
  lemma RevisionsNeverDecrease(byId: Catalog, msgs: seq<Message>, id: string)
    ensures var before, after := RevisionOf(byId, id), RevisionOf(DeliverAll(byId, msgs), id);
            before.Some? ==> after.Some? && after.value >= before.value
  {
    DeliverRaises(byId, msgs, id);
  }

  lemma {:induction false} HighestAbsorbs(msgs: seq<Message>, id: string, m: Message)
    requires m in msgs
    ensures Later(Highest(msgs, id), HighestOf(m, id)) == Highest(msgs, id)
  {
    hide HighestOf;
    var rest := Highest(msgs[1..], id);
    if m != msgs[0] {
      HighestAbsorbs(msgs[1..], id, m);
    }
  }

  lemma {:induction false} HighestCovers(few: seq<Message>, many: seq<Message>, id: string)
    requires forall m :: m in few ==> m in many
    ensures Later(Highest(many, id), Highest(few, id)) == Highest(many, id)
  {
    hide HighestOf;
    if few != [] {
      assert few[0] in few && forall m :: m in few[1..] ==> m in few;
      HighestAbsorbs(many, id, few[0]);
      HighestCovers(few[1..], many, id);
    }
  }

  /** Two clients that received the same messages, in any order and any number of times, agree. */
  lemma OrderAndRepetitionDoNotMatter(
    a: Catalog, b: Catalog, ms: seq<Message>, ns: seq<Message>, pub: History, id: string)
    requires Filed(a) && Filed(b)
    requires forall m :: m in ms <==> m in ns
    requires forall m :: m in ms ==> MessageFrom(m, pub)
    ensures var x, y := DeliverAll(WithoutBaseline(a), ms), DeliverAll(WithoutBaseline(b), ns);
            && RevisionOf(x, id) == RevisionOf(y, id)
            && (RevisionOf(x, id).Some? ==> id in x && id in y && x[id].models == y[id].models)
  {
    hide DeliverAll, Highest, MessageFrom;
    CatalogConverges(a, ms, pub, id);
    CatalogConverges(b, ns, pub, id);
    HighestCovers(ms, ns, id);
    HighestCovers(ns, ms, id);
  }

  // ----- the daemon's runs, seen by the client

  /** A message that reports states of a run: events it emitted, snapshots as they were stored at some moment. */
  ghost predicate ReportsRun(msg: Message, run: seq<State>) {
    match msg
    case Listing(list) =>
      forall e :: e in list && e.revision.Some? ==>
        exists i :: 0 <= i < |run| && Observable(run[i], e.id, e.revision.value, e.models)
    case Update(id, models, revision, _) =>
      exists i :: 0 <= i < |run| && Observable(run[i], id, revision, models)
  }

  lemma SeenWasPublished(run: seq<State>, moves: seq<(nat, Action)>, i: nat, id: string, r: nat, models: Models)
    requires IsRun(run, moves) && i < |run| && Observable(run[i], id, r, models)
    ensures var pub := run[|run| - 1].published; (id, r) in pub && pub[(id, r)] == models
  {
    hide Inv, Init, Next, Observable;
    RunKeepsInv(run, moves, i);
    ObservedIsPublished(run[i], id, r, models);
    RunPublishedGrows(run, moves, i, |run| - 1);
  }

  /**
   * End to end: for every run of the registry and every delivery of what it
   * stored and emitted, the client ends at the highest revision delivered, with
   * models that any state of the run showing that revision shows too.
   */
  lemma ClientFollowsRegistry(
    run: seq<State>, moves: seq<(nat, Action)>, byId: Catalog, msgs: seq<Message>, id: string, i: nat, models: Models)
    requires IsRun(run, moves) && Filed(byId) && forall m :: m in msgs ==> ReportsRun(m, run)
    requires Highest(msgs, id).Some? && i < |run| && Observable(run[i], id, Highest(msgs, id).value, models)
    ensures var end := DeliverAll(WithoutBaseline(byId), msgs);
            id in end && end[id].revision == Highest(msgs, id) && end[id].models == models
  {
    hide Inv, Init, Next, Observable, Highest, DeliverAll;
    var pub := run[|run| - 1].published;
    forall m | m in msgs ensures MessageFrom(m, pub) {
      ReportIsFrom(m, run, moves);
    }
    CatalogConverges(byId, msgs, pub, id);
    SeenWasPublished(run, moves, i, id, Highest(msgs, id).value, models);
  }

  lemma ReportIsFrom(m: Message, run: seq<State>, moves: seq<(nat, Action)>)
    requires IsRun(run, moves) && ReportsRun(m, run)
    ensures MessageFrom(m, run[|run| - 1].published)
  {
    hide Inv, Init, Next, Observable;
    match m {
      case Listing(list) =>
        forall e | e in list ensures EntryFrom(e, run[|run| - 1].published) {
          if e.revision.Some? {
            var i :| 0 <= i < |run| && Observable(run[i], e.id, e.revision.value, e.models);
            SeenWasPublished(run, moves, i, e.id, e.revision.value, e.models);
          }
        }
      case Update(id, models, revision, _) =>
        var i :| 0 <= i < |run| && Observable(run[i], id, revision, models);
        SeenWasPublished(run, moves, i, id, revision, models);
    }
  }

  // ----- `installed` is outside the guard

  /** The last verdict a listing carries on whether an adapter is installed. */
  function VerdictIn(list: seq<AdapterInfo>, id: string): Option<bool> {
    if list == [] then None
    else if VerdictIn(list[1..], id).Some? then VerdictIn(list[1..], id)
    else if list[0].id == id then Some(list[0].installed)
    else None
  }

  function VerdictOf(msg: Message, id: string): Option<bool> {
    match msg
    case Listing(list) => VerdictIn(list, id)
    case Update(id', _, _, installed) => if id' == id then installed else None
  }

  /** The last verdict delivered, in an event or a listing, whatever its revision. */
  function LastVerdict(msgs: seq<Message>, id: string): Option<bool> {
    if msgs == [] then None
    else if LastVerdict(msgs[1..], id).Some? then LastVerdict(msgs[1..], id)
    else VerdictOf(msgs[0], id)
  }

  predicate MentionedIn(list: seq<AdapterInfo>, id: string) {
    exists i :: 0 <= i < |list| && list[i].id == id
  }

  predicate Mentioned(msg: Message, id: string) {
    match msg
    case Listing(list) => MentionedIn(list, id)
    case Update(id', _, _, _) => id' == id
  }

  /** The verdict, or what was believed before, or, of an adapter that was not known, that it is there. */
  function Believed(byId: Catalog, verdict: Option<bool>, id: string): bool {
    if verdict.Some? then verdict.value else if id in byId then byId[id].installed else true
  }

  lemma {:induction false} MergeAllBelieves(byId: Catalog, list: seq<AdapterInfo>, id: string)
    ensures var end := MergedAll(byId, list);
            && (id in end <==> id in byId || MentionedIn(list, id))
            && (MentionedIn(list, id) <==> VerdictIn(list, id).Some?)
            && (id in end ==> end[id].installed == Believed(byId, VerdictIn(list, id), id))
    decreases |list|
  {
    if list != [] {
      MergeAllBelieves(Merged(byId, list[0]), list[1..], id);
      assert MentionedIn(list, id) <==> list[0].id == id || MentionedIn(list[1..], id) by {
        assert list == [list[0]] + list[1..];
        if MentionedIn(list[1..], id) {
          var i :| 0 <= i < |list[1..]| && list[1..][i].id == id;
          assert list[i + 1].id == id;
        }
        if MentionedIn(list, id) && list[0].id != id {
          var i :| 0 <= i < |list| && list[i].id == id;
          assert list[1..][i - 1].id == id;
        }
      }
    }
  }

  lemma DeliverBelieves(byId: Catalog, msg: Message, id: string)
    ensures var end := Deliver(byId, msg);
            && (id in end <==> id in byId || Mentioned(msg, id))
            && (VerdictOf(msg, id).Some? ==> Mentioned(msg, id))
            && (id in end ==> end[id].installed == Believed(byId, VerdictOf(msg, id), id))
  {
    match msg {
      case Listing(list) => MergeAllBelieves(byId, list, id);
      case Update(_, _, _, _) =>
    }
  }

  /**
   * For all message lists, listings included: an adapter is shown as installed
   * exactly as the last verdict delivered says, however stale its revision; with
   * no verdict nothing changes.
   */
  lemma {:induction false} InstalledIsTheLastVerdict(byId: Catalog, msgs: seq<Message>, id: string)
    ensures var end := DeliverAll(byId, msgs);
            && (id in end <==> id in byId || exists m :: m in msgs && Mentioned(m, id))
            && (id in end ==> end[id].installed == Believed(byId, LastVerdict(msgs, id), id))
    decreases |msgs|
  {
    hide Deliver, Mentioned, VerdictOf;
    if msgs != [] {
      DeliverBelieves(byId, msgs[0], id);
      InstalledIsTheLastVerdict(Deliver(byId, msgs[0]), msgs[1..], id);
      assert forall m :: m in msgs <==> m == msgs[0] || m in msgs[1..] by {
        assert msgs == [msgs[0]] + msgs[1..];
      }
    }
  }

  lemma {:induction false} VerdictHasSource(msgs: seq<Message>, id: string)
    ensures LastVerdict(msgs, id).Some? <==> exists m :: m in msgs && VerdictOf(m, id).Some?
  {
    hide VerdictOf;
    if msgs != [] {
      VerdictHasSource(msgs[1..], id);
      assert forall m :: m in msgs <==> m == msgs[0] || m in msgs[1..] by {
        assert msgs == [msgs[0]] + msgs[1..];
      }
    }
  }

  /**
   * Two deliveries of the same messages to one client, in any order and number,
   * know the same adapters, and agree on `installed` exactly when they agree on
   * the last verdict.
   */
  lemma LastVerdictDecides(byId: Catalog, ms: seq<Message>, ns: seq<Message>, id: string)
    requires forall m :: m in ms <==> m in ns
    ensures var x, y := DeliverAll(byId, ms), DeliverAll(byId, ns);
            && (id in x <==> id in y)
            && (id in x ==> (x[id].installed == y[id].installed <==> LastVerdict(ms, id) == LastVerdict(ns, id)))
  {
    hide DeliverAll, Mentioned, VerdictOf, LastVerdict;
    InstalledIsTheLastVerdict(byId, ms, id);
    InstalledIsTheLastVerdict(byId, ns, id);
    VerdictHasSource(ms, id);
    VerdictHasSource(ns, id);
  }

  /** So in every catalog two events with different verdicts leave it open, though models and revision agree. */
  lemma OrderDecidesInstalled(byId: Catalog, id: string, m: Message, m': Message)
    requires m.Update? && m'.Update? && m.id == m'.id == id && m.installed.Some? && m'.installed.Some?
    ensures var x, y := DeliverAll(byId, [m, m']), DeliverAll(byId, [m', m]);
            id in x && id in y && (x[id].installed == y[id].installed <==> m.installed == m'.installed)
  {
    var ms, ns := [m, m'], [m', m];
    assert m in ms && forall w :: w in ms <==> w in ns;
    LastVerdictDecides(byId, ms, ns, id);
    InstalledIsTheLastVerdict(byId, ms, id);
    assert ms[1..] == [m'] && ns[1..] == [m] && [m][1..] == [] && [m'][1..] == [];
    assert LastVerdict([m], id) == m.installed && LastVerdict([m'], id) == m'.installed;
  }

  // ----- identity comes with the listing, models with the revision

  /** The last entry a listing carries for an adapter. */
  function EntryIn(list: seq<AdapterInfo>, id: string): Option<AdapterInfo> {
    if list == [] then None
    else if EntryIn(list[1..], id).Some? then EntryIn(list[1..], id)
    else if list[0].id == id then Some(list[0])
    else None
  }

  /** The last listing entry delivered for an adapter, whatever its revision. */
  function LastEntry(msgs: seq<Message>, id: string): Option<AdapterInfo> {
    if msgs == [] then None
    else if LastEntry(msgs[1..], id).Some? then LastEntry(msgs[1..], id)
    else if msgs[0].Listing? then EntryIn(msgs[0].list, id)
    else None
  }

  /** Name and capabilities: those of an entry, or as they were, or the placeholder's of an adapter not known before. */
  predicate Identified(byId: Catalog, entry: Option<AdapterInfo>, id: string, info: AdapterInfo) {
    if entry.Some? then info.name == entry.value.name && info.capable == entry.value.capable
    else if id in byId then info.name == byId[id].name && info.capable == byId[id].capable
    else info.name == id && !info.capable
  }

  lemma {:induction false} MergeAllIdentifies(byId: Catalog, list: seq<AdapterInfo>, id: string)
    ensures var end := MergedAll(byId, list);
            id in end <==> id in byId || EntryIn(list, id).Some?
    ensures var end := MergedAll(byId, list);
            id in end ==> Identified(byId, EntryIn(list, id), id, end[id])
    decreases |list|
  {
    if list != [] {
      MergeAllIdentifies(Merged(byId, list[0]), list[1..], id);
    }
  }

  /**
   * For all message lists: an adapter has the name and the capabilities of the
   * last listing entry delivered for it, whatever its revision; with no entry
   * they stay, and an adapter first seen in an event is a placeholder.
   */
  lemma {:induction false} IdentityIsTheLastEntry(byId: Catalog, msgs: seq<Message>, id: string)
    ensures var end := DeliverAll(byId, msgs);
            id in end ==> Identified(byId, LastEntry(msgs, id), id, end[id])
    decreases |msgs|
  {
    hide MergedAll, EntryIn;
    if msgs != [] {
      if msgs[0].Listing? {
        MergeAllIdentifies(byId, msgs[0].list, id);
      }
      IdentityIsTheLastEntry(Deliver(byId, msgs[0]), msgs[1..], id);
      DeliverKnows(Deliver(byId, msgs[0]), msgs[1..], id);
    }
  }

  lemma {:induction false} DeliverKnows(byId: Catalog, msgs: seq<Message>, id: string)
    ensures id in byId || LastEntry(msgs, id).Some? ==> id in DeliverAll(byId, msgs)
    decreases |msgs|
  {
    hide MergedAll, EntryIn;
    if msgs != [] {
      if msgs[0].Listing? {
        MergeAllIdentifies(byId, msgs[0].list, id);
      }
      DeliverKnows(Deliver(byId, msgs[0]), msgs[1..], id);
    }
  }

  /** A catalog, as the models, the revision and the source of one adapter. */
  datatype Offer = Offer(models: Models, revision: Option<nat>, source: Option<Source>)

  function OfferOf(info: AdapterInfo): Offer {
    Offer(info.models, info.revision, info.source)
  }

  /** The message brings this offer for the adapter. */
  ghost predicate Brings(msg: Message, id: string, offer: Offer) {
    match msg
    case Listing(list) => exists e :: e in list && e.id == id && OfferOf(e) == offer
    case Update(id', models, revision, _) => id' == id && offer == Offer(models, Some(revision), Some(Probed))
  }

  lemma {:induction false} MergeAllOffers(byId: Catalog, list: seq<AdapterInfo>, id: string)
    ensures var end := MergedAll(byId, list);
            id in end ==>
              || (id in byId && OfferOf(end[id]) == OfferOf(byId[id]))
              || (exists e :: e in list && e.id == id && OfferOf(e) == OfferOf(end[id]))
    ensures var end := MergedAll(byId, list);
            id in byId && RevisionOf(end, id) == RevisionOf(byId, id) ==>
              id in end && OfferOf(end[id]) == OfferOf(byId[id])
    decreases |list|
  {
    if list != [] {
      var next, end := Merged(byId, list[0]), MergedAll(byId, list);
      MergeAllOffers(next, list[1..], id);
      MergeRaises(next, list[1..], id);
      assert list == [list[0]] + list[1..];
    }
  }

  lemma DeliverOffers(byId: Catalog, msg: Message, id: string)
    ensures var end := Deliver(byId, msg);
            id in end ==>
              (id in byId && OfferOf(end[id]) == OfferOf(byId[id])) || Brings(msg, id, OfferOf(end[id]))
    ensures var end := Deliver(byId, msg);
            id in byId && RevisionOf(end, id) == RevisionOf(byId, id) ==>
              id in end && OfferOf(end[id]) == OfferOf(byId[id])
  {
    if msg.Listing? {
      MergeAllOffers(byId, msg.list, id);
    }
  }

  /**
   * Models, revision and source go together: they are those of one message
   * delivered, or as they were; and they are as they were whenever the revision is.
   */
  lemma {:induction false} OffersComeWhole(byId: Catalog, msgs: seq<Message>, id: string)
    ensures var end := DeliverAll(byId, msgs);
            id in end ==>
              || (id in byId && OfferOf(end[id]) == OfferOf(byId[id]))
              || (exists m :: m in msgs && Brings(m, id, OfferOf(end[id])))
    ensures var end := DeliverAll(byId, msgs);
            id in byId && RevisionOf(end, id) == RevisionOf(byId, id) ==>
              id in end && OfferOf(end[id]) == OfferOf(byId[id])
    decreases |msgs|
  {
    hide Deliver, Brings;
    if msgs != [] {
      var next := Deliver(byId, msgs[0]);
      DeliverOffers(byId, msgs[0], id);
      OffersComeWhole(next, msgs[1..], id);
      DeliverRaises(byId, [msgs[0]], id);
      DeliverRaises(next, msgs[1..], id);
      OneDelivery(byId, msgs[0]);
      assert msgs == [msgs[0]] + msgs[1..];
    }
  }

  lemma OneDelivery(byId: Catalog, msg: Message)
    ensures DeliverAll(byId, [msg]) == Deliver(byId, msg)
  {
    assert [msg][1..] == [];
  }

  /** What was shown before a reset stays in view until a message brings a revision. */
  lemma ModelsSurviveReset(byId: Catalog, msgs: seq<Message>, id: string)
    requires id in byId && Highest(msgs, id).None?
    ensures var end := DeliverAll(WithoutBaseline(byId), msgs);
            id in end && end[id].models == byId[id].models && end[id].source == byId[id].source
  {
    DeliverRaises(WithoutBaseline(byId), msgs, id);
    OffersComeWhole(WithoutBaseline(byId), msgs, id);
  }
}
