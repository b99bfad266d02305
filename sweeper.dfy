/**
 * The script's module-level state and the functions that update it in place:
 * `forEachCallback`, `_processHashtag`, `_handleAdditions` and the callback
 * chain that drives them. Each method is proved against the pure model of
 * the same step (Directory, Aggregator, Applier, Pipeline).
 */
module Sweeper {
  import opened Types
  import opened Classifier
  import Tokenizer
  import opened Directory
  import opened Aggregator
  import opened Applier
  import opened Pipeline

  class TweetSweeper {
    var twitterHandles: seq<Handle>
    var recipientIdsByHandle: map<Handle, seq<RecipientId>>
    var emailByRecipientId: map<RecipientId, Email>
    var additions: Additions
    var twitterListId: Option<TwitterListId>
    /** The external calls issued so far, in order. */
    var calls: seq<ExternalCall>

    /** The three maps the export fills, as one value. */
    function Dir(): Directory
      reads this
    {
      Directory(twitterHandles, recipientIdsByHandle, emailByRecipientId)
    }

    /** The state at load time: empty collections, no list, nothing issued. */
    ghost predicate Initial()
      reads this
    {
      Dir() == Empty && additions == map[] && twitterListId.None? && calls == []
    }

    /** The state `_createTwitterList` starts from: a successful export with at least one handle. */
    ghost predicate Exported(env: Environment)
      reads this
    {
      && env.exportOk
      && Dir() == ExportedDirectory(env) && |twitterHandles| > 0
      && additions == map[] && twitterListId.None?
      && calls == [ExportList]
    }

    /** The state `_sweepTweets` starts from: the list `id` created and populated. */
    ghost predicate Populated(env: Environment, id: TwitterListId)
      reads this
    {
      && env.exportOk
      && Dir() == ExportedDirectory(env) && |twitterHandles| > 0
      && env.created == Some(id) && env.populateOk
      && additions == map[] && twitterListId == Some(id)
      && calls == [ExportList, CreateList, PopulateList(id, twitterHandles)]
    }

    /** The state `_handleAdditions` starts from: every status swept without a throw. */
    ghost predicate Swept(env: Environment, id: TwitterListId)
      reads this
    {
      && env.exportOk
      && Dir() == ExportedDirectory(env) && |twitterHandles| > 0
      && env.created == Some(id) && env.populateOk && env.statuses.Some?
      && Sweep(recipientIdsByHandle, env.statuses.value, map[]) == Success(additions)
      && twitterListId == Some(id)
      && calls == [ExportList, CreateList, PopulateList(id, twitterHandles), ReadStatuses(id)]
    }

    constructor ()
      ensures Initial()
    {
      twitterHandles := [];
      recipientIdsByHandle := map[];
      emailByRecipientId := map[];
      additions := map[];
      twitterListId := None;
      calls := [];
    }

    /** `forEachCallback`: record one exported row. */
    method ForEachCallback(rec: ExportRecord)
      modifies this`twitterHandles, this`recipientIdsByHandle, this`emailByRecipientId
      ensures Dir() == AddRecord(old(Dir()), rec)
    {
      if HasHandle(rec) {
        var h := rec.twitterHandle.value;
        twitterHandles := twitterHandles + [h];
        if h !in recipientIdsByHandle {
          recipientIdsByHandle := recipientIdsByHandle[h := []];
        }
        recipientIdsByHandle := recipientIdsByHandle[h := recipientIdsByHandle[h] + [rec.recipientId]];
        emailByRecipientId := emailByRecipientId[rec.recipientId := rec.email];
      }
    }

    /**
     * `_processHashtag`: add the hashtag's contact list to every recipient of
     * the handle, unless an entry already has it; an unknown handle is only
     * reported.
     */
    method ProcessHashtag(twitterHandle: Handle, hashtag: string) returns (warned: bool)
      modifies this`additions
      ensures warned <==> twitterHandle !in recipientIdsByHandle
      ensures additions == AfterHashtag(recipientIdsByHandle, twitterHandle, hashtag, old(additions))
    {
      if twitterHandle !in recipientIdsByHandle {
        return true;
      }
      warned := false;
      var ids := recipientIdsByHandle[twitterHandle];
      ghost var listId := ContactListIdForHashtag(hashtag);
      var i := 0;
      while i < |ids|
        invariant 0 <= i <= |ids|
        invariant listId.None? ==> additions == old(additions)
        invariant listId.Some? ==>
          AddToAll(old(additions), ids, listId.value) == AddToAll(additions, ids[i..], listId.value)
      {
        var recipientId := ids[i];
        var contactListId := ContactListIdForHashtag(hashtag);
        if contactListId.Some? {
          var l := contactListId.value;
          AddToAllStep(additions, ids, i, l);
          GuardedPush(additions, recipientId, l);
          if recipientId !in additions {
            additions := additions[recipientId := [l]];
          } else if l !in additions[recipientId] {
            additions := additions[recipientId := additions[recipientId] + [l]];
          }
        }
        i := i + 1;
      }
      assert ids[i..] == [];
    }

    /** `_exportEngageDatabase`: stream the export through the callback, then branch on its outcome. */
    method ExportEngageDatabase(env: Environment) returns (stage: Stage, ghost order: seq<RecipientId>)
      requires Initial()
      modifies this
      ensures Outcome(stage, calls) == Chain(env, order) && OrderFits(env, order)
      ensures env.exportOk ==> Dir() == ExportedDirectory(env)
    {
      calls := calls + [ExportList];
      var i := 0;
      while i < |env.records|
        invariant 0 <= i <= |env.records|
        invariant Build(Empty, env.records) == Build(Dir(), env.records[i..])
        invariant additions == map[] && twitterListId.None? && calls == [ExportList]
      {
        assert env.records[i..][1..] == env.records[i + 1..];
        ForEachCallback(env.records[i]);
        i := i + 1;
      }
      assert env.records[i..] == [];
      order := [];
      if !env.exportOk {
        stage := ExportFailed;
      } else if |twitterHandles| == 0 {
        stage := NoHandles;
      } else {
        stage, order := CreateTwitterList(env);
      }
    }

    /** `_createTwitterList`: create the list, then populate it with every exported handle. */
    method CreateTwitterList(env: Environment) returns (stage: Stage, ghost order: seq<RecipientId>)
      requires Exported(env)
      modifies this
      ensures Outcome(stage, calls) == Chain(env, order) && OrderFits(env, order)
      ensures Dir() == old(Dir())
      ensures twitterListId == env.created
    {
      calls := calls + [CreateList];
      order := [];
      match env.created
      case None =>
        stage := CreateFailed;
      case Some(id) =>
        twitterListId := Some(id);
        calls := calls + [PopulateList(id, twitterHandles)];
        if !env.populateOk {
          stage := PopulateFailed;
        } else {
          stage, order := SweepTweets(env, id);
        }
    }

    /**
     * The callback of `data.forEach` for one status: tokenize its text and hand
     * every hashtag to `ProcessHashtag`, in text order; a blank text throws
     * before any hashtag is handled.
     */
    method ProcessTweet(tweet: Tweet) returns (threw: bool)
      modifies this`additions
      ensures threw <==> Tokenizer.Hashtags(tweet.text).Failure?
      ensures threw ==> additions == old(additions)
      ensures !threw ==>
        additions == AfterHashtags(recipientIdsByHandle, tweet.screenName, Tokenizer.Hashtags(tweet.text).value, old(additions))
    {
      match Tokenizer.Hashtags(tweet.text)
      case Failure(_) =>
        return true;
      case Success(tags) =>
        threw := false;
        var j := 0;
        while j < |tags|
          invariant 0 <= j <= |tags|
          invariant AfterHashtags(recipientIdsByHandle, tweet.screenName, tags, old(additions)) ==
                    AfterHashtags(recipientIdsByHandle, tweet.screenName, tags[j..], additions)
        {
          assert tags[j..][1..] == tags[j + 1..];
          var _ := ProcessHashtag(tweet.screenName, tags[j]);
          j := j + 1;
        }
        assert tags[j..] == [];
    }

    /**
     * `_sweepTweets`: read the list's statuses and sweep them in order; a
     * throw ends the chain, otherwise `_handleAdditions` follows.
     */
    method SweepTweets(env: Environment, id: TwitterListId) returns (stage: Stage, ghost order: seq<RecipientId>)
      requires Populated(env, id)
      modifies this
      ensures Outcome(stage, calls) == Chain(env, order) && OrderFits(env, order)
      ensures Dir() == old(Dir()) && twitterListId == Some(id)
      ensures stage in {DestroyFailed, Reported} ==> SweepOf(env) == Some(Success(additions))
    {
      calls := calls + [ReadStatuses(id)];
      order := [];
      match env.statuses
      case None =>
        ChainNotSwept(env, order, id);
        stage := ReadFailed;
      case Some(tweets) =>
        var i := 0;
        while i < |tweets|
          invariant 0 <= i <= |tweets|
          invariant Sweep(recipientIdsByHandle, tweets, map[]) == Sweep(recipientIdsByHandle, tweets[i..], additions)
          invariant Dir() == old(Dir()) && twitterListId == Some(id)
          invariant calls == [ExportList, CreateList, PopulateList(id, twitterHandles), ReadStatuses(id)]
        {
          assert tweets[i..][0] == tweets[i] && tweets[i..][1..] == tweets[i + 1..];
          var threw := ProcessTweet(tweets[i]);
          if threw {
            ChainNotSwept(env, order, id);
            return SweepThrew, order;
          }
          i := i + 1;
        }
        assert tweets[i..] == [];
        stage, order := HandleAdditions(env, id);
    }

    /** The `forEach` of one entry in `_handleAdditions`: one add call per list id, in entry order. */
    method HandleEntry(recipientId: RecipientId)
      requires recipientId in additions
      modifies this`calls
      ensures calls == old(calls) + AddCallsOf(recipientId, additions[recipientId])
    {
      var entry := additions[recipientId];
      var j := 0;
      while j < |entry|
        invariant 0 <= j <= |entry|
        invariant calls == old(calls) + AddCallsOf(recipientId, entry[..j])
      {
        assert entry[..j + 1][..j] == entry[..j];
        calls := calls + [AddContact(recipientId, entry[j])];
        j := j + 1;
      }
      assert entry[..j] == entry;
    }

    /** The `for...in` of `_handleAdditions`: every entry once, in an order the model leaves open. */
    method HandleEntries() returns (ghost order: seq<RecipientId>)
      modifies this`calls
      ensures calls == old(calls) + CallsFor(additions, order)
      ensures Enumerates(order, additions.Keys)
    {
      var adds := additions;
      var keys := adds.Keys;
      order := [];
      while keys != {}
        invariant additions == adds
        invariant Visiting(order, keys, adds.Keys)
        invariant calls == old(calls) + CallsFor(adds, order)
        decreases keys
      {
        var recipientId :| recipientId in keys;
        ghost var before := calls;
        HandleEntry(recipientId);
        IssueStep(old(calls), adds, order, recipientId, before, calls);
        VisitOne(order, keys, adds.Keys, recipientId);
        keys := keys - {recipientId};
        order := order + [recipientId];
      }
      VisitedAll(order, adds.Keys);
    }

    /** `_handleAdditions`: issue the add calls, then `_destroyTwitterList` without waiting for them. */
    method HandleAdditions(env: Environment, id: TwitterListId) returns (stage: Stage, ghost order: seq<RecipientId>)
      requires Swept(env, id)
      modifies this`calls
      ensures Outcome(stage, calls) == Chain(env, order) && OrderFits(env, order)
    {
      order := HandleEntries();
      ChainSwept(env, order, id, additions);
      OrderFitsSwept(env, order, additions);
      stage := DestroyTwitterList(env.destroyOk);
    }

    /** `_destroyTwitterList`: delete the list; `_finalReport` runs only when that succeeds. */
    method DestroyTwitterList(destroyOk: bool) returns (stage: Stage)
      requires twitterListId.Some?
      modifies this`calls
      ensures calls == old(calls) + [DestroyList(twitterListId.value)]
      ensures stage == (if destroyOk then Reported else DestroyFailed)
    {
      calls := calls + [DestroyList(twitterListId.value)];
      stage := if destroyOk then Reported else DestroyFailed;
    }
  }

  /** A whole run from load time: the calls and the final stage are those of the state machine. */
  method RunScript(env: Environment) returns (stage: Stage, calls: seq<ExternalCall>, ghost order: seq<RecipientId>)
    ensures Outcome(stage, calls) == Chain(env, order) && OrderFits(env, order)
  {
    var sweeper := new TweetSweeper();
    stage, order := sweeper.ExportEngageDatabase(env);
    calls := sweeper.calls;
  }
}
