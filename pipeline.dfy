/**
 * The callback chain from `_exportEngageDatabase` to `_finalReport` as a state
 * machine. Each external call is reduced to its outcome, taken from an
 * environment; the run is the stage where the chain stopped and the list of
 * external calls it issued, in order.
 */
module Pipeline {
  import opened Types
  import opened Directory
  import opened Aggregator
  import opened Applier

  /** The outcomes the external services give to the calls of one run. */
  datatype Environment = Environment(
    records: seq<ExportRecord>,           // rows streamed to `forEachCallback`
    exportOk: bool,                       // `err` of `exportListForEach`
    created: Option<TwitterListId>,       // `data.id` of `lists/create`, None on error
    populateOk: bool,                     // `lists/members/create_all`
    statuses: Option<seq<Tweet>>,         // `data` of `lists/statuses`, None on error
    destroyOk: bool)                      // `lists/destroy`

  /** Where the chain stopped. */
  datatype Stage =
    | ExportFailed     // export error logged
    | NoHandles        // export gave no handle
    | CreateFailed     // list creation error logged
    | PopulateFailed   // populate error logged; the list stays
    | ReadFailed       // status read error logged; the list stays
    | SweepThrew       // a blank tweet made the tokenizer throw; the list stays
    | DestroyFailed    // destroy error logged after the add calls
    | Reported         // `_finalReport` ran

  datatype Outcome = Outcome(stage: Stage, calls: seq<ExternalCall>)

  /** The directory the export builds from the records of `env`. */
  function ExportedDirectory(env: Environment): Directory
  {
    Build(Empty, env.records)
  }

  /**
   * The sweep of `env`'s statuses over the exported directory, from empty
   * additions; None when the chain does not reach it (any earlier failure).
   */
  function SweepOf(env: Environment): Option<Result<Additions, Tokenizer.TweetError>>
  {
    var dir := ExportedDirectory(env);
    if env.exportOk && |dir.twitterHandles| > 0 && env.created.Some? && env.populateOk && env.statuses.Some?
    then Some(Sweep(dir.recipientIdsByHandle, env.statuses.value, map[]))
    else None
  }

  /** `order` is a visiting order of the additions the sweep produces, when it produces some. */
  predicate OrderFits(env: Environment, order: seq<RecipientId>)
  {
    match SweepOf(env)
    case Some(Success(adds)) => Enumerates(order, adds.Keys)
    case _ => true
  }

  /** The run, with `order` the order in which `for...in` visits the additions. */
  function Chain(env: Environment, order: seq<RecipientId>): Outcome
  {
    var dir := ExportedDirectory(env);
    if !env.exportOk then Outcome(ExportFailed, [ExportList])
    else if |dir.twitterHandles| == 0 then Outcome(NoHandles, [ExportList])
    else match env.created
      case None => Outcome(CreateFailed, [ExportList, CreateList])
      case Some(id) =>
        var populated := [ExportList, CreateList, PopulateList(id, dir.twitterHandles)];
        if !env.populateOk then Outcome(PopulateFailed, populated)
        else match env.statuses
          case None => Outcome(ReadFailed, populated + [ReadStatuses(id)])
          case Some(tweets) =>
            match Sweep(dir.recipientIdsByHandle, tweets, map[])
            case Failure(_) => Outcome(SweepThrew, populated + [ReadStatuses(id)])
            case Success(adds) =>
              Outcome(
                if env.destroyOk then Reported else DestroyFailed,
                populated + [ReadStatuses(id)] + CallsFor(adds, order) + [DestroyList(id)])
  }

  /** Some record of the export carries a handle. */
  predicate SomeHandle(records: seq<ExportRecord>)
  {
    exists i :: 0 <= i < |records| && HasHandle(records[i])
  }

  // ---------------------------------------------------------------- lemmas

  /** The add calls never include a call of another kind. */
  lemma OnlyAdds(adds: Additions, order: seq<RecipientId>)
    ensures forall c :: c in CallsFor(adds, order) ==> c.AddContact?
  {
    forall c | c in CallsFor(adds, order) ensures c.AddContact? {
      CallsForMember(adds, order, c);
    }
  }

  /** Every run starts with the export; it is the only call when the export fails or finds no handle. */
  lemma ExportFirst(env: Environment, order: seq<RecipientId>)
    ensures |Chain(env, order).calls| > 0 && Chain(env, order).calls[0] == ExportList
    ensures Chain(env, order).calls == [ExportList] <==>
            !env.exportOk || !SomeHandle(env.records)
  {
    NoHandlesIffNoHandleRecords(env.records);
  }

  /** The calls of a run, branch by branch of the chain. */
  lemma ChainCalls(env: Environment, order: seq<RecipientId>)
    ensures var calls, dir := Chain(env, order).calls, ExportedDirectory(env);
      && (!env.exportOk || |dir.twitterHandles| == 0 ==> calls == [ExportList])
      && (env.exportOk && |dir.twitterHandles| > 0 && env.created.None? ==> calls == [ExportList, CreateList])
      && (env.exportOk && |dir.twitterHandles| > 0 && env.created.Some? && !env.populateOk ==>
            calls == [ExportList, CreateList, PopulateList(env.created.value, dir.twitterHandles)])
  {
  }

  /** The calls of a run that reaches the status read, branch by branch. */
  lemma ChainSweepCalls(env: Environment, order: seq<RecipientId>)
    ensures var calls, dir := Chain(env, order).calls, ExportedDirectory(env);
      && (SweepOf(env).Some? && SweepOf(env).value.Failure? ==>
            calls == [ExportList, CreateList, PopulateList(env.created.value, dir.twitterHandles),
                      ReadStatuses(env.created.value)])
      && (env.exportOk && |dir.twitterHandles| > 0 && env.created.Some? && env.populateOk && env.statuses.None? ==>
            calls == [ExportList, CreateList, PopulateList(env.created.value, dir.twitterHandles),
                      ReadStatuses(env.created.value)])
      && (SweepOf(env).Some? && SweepOf(env).value.Success? ==>
            calls == [ExportList, CreateList, PopulateList(env.created.value, dir.twitterHandles),
                      ReadStatuses(env.created.value)] + CallsFor(SweepOf(env).value.value, order)
                     + [DestroyList(env.created.value)])
  {
  }

  /**
   * The list is created exactly when the export succeeds with at least one
   * handle, and populated, with the exported handles, only once it is created.
   */
  lemma CreateAndPopulateIssued(env: Environment, order: seq<RecipientId>, id: TwitterListId, hs: seq<Handle>)
    ensures CreateList in Chain(env, order).calls <==> env.exportOk && SomeHandle(env.records)
    ensures PopulateList(id, hs) in Chain(env, order).calls <==>
            env.exportOk && SomeHandle(env.records) && env.created == Some(id) &&
            hs == ExportedDirectory(env).twitterHandles
  {
    NoHandlesIffNoHandleRecords(env.records);
    ChainCalls(env, order);
    ChainSweepCalls(env, order);
    var calls, dir := Chain(env, order).calls, ExportedDirectory(env);
    if env.exportOk && |dir.twitterHandles| > 0 && env.created.Some? {
      var populate := PopulateList(env.created.value, dir.twitterHandles);
      assert |calls| >= 3 && calls[..3] == [ExportList, CreateList, populate];
      if SweepOf(env).Some? && SweepOf(env).value.Success? {
        OnlyAdds(SweepOf(env).value.value, order);
      }
      assert forall c :: c in calls && !c.AddContact? ==>
        c in [ExportList, CreateList, populate, ReadStatuses(env.created.value), DestroyList(env.created.value)];
    }
  }

  /** The statuses are read only once the list is created and populated. */
  lemma ReadIssued(env: Environment, order: seq<RecipientId>, id: TwitterListId)
    ensures ReadStatuses(id) in Chain(env, order).calls <==>
            env.exportOk && SomeHandle(env.records) && env.created == Some(id) && env.populateOk
  {
    NoHandlesIffNoHandleRecords(env.records);
    ChainCalls(env, order);
    ChainSweepCalls(env, order);
    var calls, dir := Chain(env, order).calls, ExportedDirectory(env);
    if env.exportOk && |dir.twitterHandles| > 0 && env.created.Some? {
      var created := env.created.value;
      if SweepOf(env).Some? && SweepOf(env).value.Success? {
        OnlyAdds(SweepOf(env).value.value, order);
      }
      assert forall c :: c in calls && !c.AddContact? ==>
        c in [ExportList, CreateList, PopulateList(created, dir.twitterHandles), ReadStatuses(created), DestroyList(created)];
      if env.populateOk {
        assert calls[3] == ReadStatuses(created);
      }
    }
  }

  /** The list is destroyed exactly when the sweep ran to completion. */
  lemma DestroyIssued(env: Environment, order: seq<RecipientId>, id: TwitterListId)
    ensures DestroyList(id) in Chain(env, order).calls <==>
            env.created == Some(id) && SweepOf(env).Some? && SweepOf(env).value.Success?
  {
    ChainCalls(env, order);
    ChainSweepCalls(env, order);
    var calls, dir := Chain(env, order).calls, ExportedDirectory(env);
    if env.exportOk && |dir.twitterHandles| > 0 && env.created.Some? {
      var created := env.created.value;
      if SweepOf(env).Some? && SweepOf(env).value.Success? {
        OnlyAdds(SweepOf(env).value.value, order);
        assert calls[|calls| - 1] == DestroyList(created);
      }
      assert forall c :: c in calls && !c.AddContact? ==>
        c in [ExportList, CreateList, PopulateList(created, dir.twitterHandles), ReadStatuses(created), DestroyList(created)];
    }
  }

  /** Destroy, when issued, is the last call of the run. */
  lemma DestroyLast(env: Environment, order: seq<RecipientId>, id: TwitterListId)
    ensures DestroyList(id) in Chain(env, order).calls ==>
            Chain(env, order).calls[|Chain(env, order).calls| - 1] == DestroyList(id)
  {
    DestroyIssued(env, order, id);
    ChainSweepCalls(env, order);
  }

  /**
   * Before destroy, exactly one add call per (recipient, list) pair of the
   * swept additions: the calls between the status read and the destroy are
   * distinct, they are the pairs, and their number is the sum of the entry
   * lengths.
   */
  lemma AddsBeforeDestroy(env: Environment, order: seq<RecipientId>, adds: Additions)
    requires SweepOf(env) == Some(Success(adds))
    requires OrderFits(env, order)
    ensures var calls := Chain(env, order).calls;
      && |calls| == 4 + |Pairs(adds)| + 1
      && calls[4..|calls| - 1] == CallsFor(adds, order)
      && Distinct(calls[4..|calls| - 1])
      && (forall c :: c in calls[4..|calls| - 1] <==> c in Pairs(adds))
      && |Pairs(adds)| == TotalLength(adds, order)
  {
    var dir := ExportedDirectory(env);
    var id := env.created.value;
    SweepWellFormed(dir.recipientIdsByHandle, env.statuses.value, map[]);
    OneCallPerPair(adds, order);
    var calls := Chain(env, order).calls;
    var populated := [ExportList, CreateList, PopulateList(id, dir.twitterHandles)];
    assert calls == populated + [ReadStatuses(id)] + CallsFor(adds, order) + [DestroyList(id)];
    assert calls[4..|calls| - 1] == CallsFor(adds, order);
  }

  /**
   * End to end: recipient `id` is added to contact list `l` exactly when the
   * sweep ran to completion and some status carries a hashtag of `l` and was
   * posted by an exported handle of `id`.
   */
  lemma AddIssuedIffTweeted(env: Environment, order: seq<RecipientId>, id: RecipientId, l: ContactListId)
    requires OrderFits(env, order)
    ensures AddContact(id, l) in Chain(env, order).calls <==>
            && SweepOf(env).Some? && SweepOf(env).value.Success?
            && exists i, t :: StatusBrings(ExportedDirectory(env).recipientIdsByHandle, env.statuses.value, i, t, id, l)
  {
    ChainCalls(env, order);
    ChainSweepCalls(env, order);
    var c := AddContact(id, l);
    var dir := ExportedDirectory(env);
    if SweepOf(env).Some? && SweepOf(env).value.Success? {
      var adds := SweepOf(env).value.value;
      var listId := env.created.value;
      var prefix := [ExportList, CreateList, PopulateList(listId, dir.twitterHandles), ReadStatuses(listId)];
      var calls := Chain(env, order).calls;
      assert calls == prefix + CallsFor(adds, order) + [DestroyList(listId)];
      assert c in calls <==> c in CallsFor(adds, order);
      CallsForMember(adds, order, c);
      assert id in order <==> id in adds;
      SweepMember(dir.recipientIdsByHandle, env.statuses.value, map[], adds, id, l);
    } else {
      assert c !in Chain(env, order).calls;
    }
  }

  /**
   * Every recipient `_handleAdditions` visits has an email in the export, so the
   * lookup `emailByRecipientId[recipientId]` finds an address.
   */
  lemma AddedRecipientsHaveEmail(env: Environment, adds: Additions)
    requires SweepOf(env) == Some(Success(adds))
    ensures forall id :: id in adds ==> id in ExportedDirectory(env).emailByRecipientId
  {
    var dir := ExportedDirectory(env);
    ValidEmpty();
    BuildValid(Empty, env.records);
    assert WellFormed(dir.recipientIdsByHandle, map[]);
    SweepWellFormed(dir.recipientIdsByHandle, env.statuses.value, map[]);
    forall id | id in adds ensures id in dir.emailByRecipientId {
      assert Known(dir.recipientIdsByHandle, id);
      var h :| h in dir.recipientIdsByHandle && id in dir.recipientIdsByHandle[h];
    }
  }

  /** The final report runs exactly when destroy was issued and succeeded. */
  lemma ReportedIffDestroyed(env: Environment, order: seq<RecipientId>)
    ensures Chain(env, order).stage == Reported <==>
            (exists id :: DestroyList(id) in Chain(env, order).calls) && env.destroyOk
  {
    if env.created.Some? {
      DestroyIssued(env, order, env.created.value);
    }
    if exists id :: DestroyList(id) in Chain(env, order).calls {
      var id :| DestroyList(id) in Chain(env, order).calls;
      DestroyIssued(env, order, id);
    }
  }

  /**
   * The created list is never destroyed when populate, the status read or the
   * tokenizer fails: those branches only log, and the list outlives the run.
   */
  lemma LeakAfterCreate(env: Environment, order: seq<RecipientId>, id: TwitterListId)
    requires env.created == Some(id)
    ensures Chain(env, order).stage in {PopulateFailed, ReadFailed, SweepThrew} ==>
            CreateList in Chain(env, order).calls && DestroyList(id) !in Chain(env, order).calls
    ensures Chain(env, order).stage in {PopulateFailed, ReadFailed, SweepThrew} <==>
            env.exportOk && SomeHandle(env.records) &&
            (!env.populateOk || env.statuses.None? || Sweep(ExportedDirectory(env).recipientIdsByHandle, env.statuses.value, map[]).Failure?)
  {
    NoHandlesIffNoHandleRecords(env.records);
    DestroyIssued(env, order, id);
  }

  /** A failed list creation ends the run after two calls, with nothing to tear down. */
  lemma CreateFails(env: Environment, order: seq<RecipientId>)
    requires env.exportOk && SomeHandle(env.records) && env.created.None?
    ensures Chain(env, order) == Outcome(CreateFailed, [ExportList, CreateList])
  {
    NoHandlesIffNoHandleRecords(env.records);
  }

  // --------------------------------------------- the chain, stage by stage

  /** The run once the list is populated and the sweep has run to completion. */
  lemma ChainSwept(env: Environment, order: seq<RecipientId>, id: TwitterListId, adds: Additions)
    requires env.exportOk && |ExportedDirectory(env).twitterHandles| > 0
    requires env.created == Some(id) && env.populateOk && env.statuses.Some?
    requires Sweep(ExportedDirectory(env).recipientIdsByHandle, env.statuses.value, map[]) == Success(adds)
    ensures Chain(env, order) == Outcome(
              if env.destroyOk then Reported else DestroyFailed,
              [ExportList, CreateList, PopulateList(id, ExportedDirectory(env).twitterHandles), ReadStatuses(id)]
              + CallsFor(adds, order) + [DestroyList(id)])
  {
  }

  /** Once the sweep has run to completion, a fitting order is one that enumerates its additions. */
  lemma OrderFitsSwept(env: Environment, order: seq<RecipientId>, adds: Additions)
    requires SweepOf(env) == Some(Success(adds))
    ensures OrderFits(env, order) <==> Enumerates(order, adds.Keys)
  {
  }

  /** The run once the list is populated and the status read failed or the sweep threw. */
  lemma ChainNotSwept(env: Environment, order: seq<RecipientId>, id: TwitterListId)
    requires env.exportOk && |ExportedDirectory(env).twitterHandles| > 0
    requires env.created == Some(id) && env.populateOk
    requires env.statuses.Some? ==>
             Sweep(ExportedDirectory(env).recipientIdsByHandle, env.statuses.value, map[]).Failure?
    ensures Chain(env, order) == Outcome(
              if env.statuses.None? then ReadFailed else SweepThrew,
              [ExportList, CreateList, PopulateList(id, ExportedDirectory(env).twitterHandles), ReadStatuses(id)])
    ensures OrderFits(env, order)
  {
  }
}
