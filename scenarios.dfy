/** Worked examples of the sweep on a small directory. */
module Scenarios {
  import opened Types
  import opened Classifier
  import Tokenizer
  import opened Aggregator

  /** A directory in which alice has recipient 1, bob recipients 2 and 3, and carol is unknown. */
  predicate ScenarioDirectory(dir: map<Handle, seq<RecipientId>>)
  {
    && "alice" in dir && dir["alice"] == ["1"]
    && "bob" in dir && dir["bob"] == ["2", "3"]
    && "carol" !in dir
  }

  /** A recipient without an entry gets a fresh one holding just the list. */
  lemma AddToFresh(adds: Additions, x: RecipientId, l: ContactListId)
    requires x !in adds
    ensures AddToAll(adds, [x], l) == adds[x := [l]]
  {
    assert [x][1..] == [];
    assert Entry(adds, x) == [];
    assert AddListId([], l) == [l];
  }

  /** Two distinct recipients without entries each get a fresh one. */
  lemma AddToTwoFresh(adds: Additions, x: RecipientId, y: RecipientId, l: ContactListId)
    requires x != y && x !in adds && y !in adds
    ensures AddToAll(adds, [x, y], l) == adds[x := [l]][y := [l]]
  {
    assert [x, y][1..] == [y];
    assert Entry(adds, x) == [] && AddListId([], l) == [l];
    assert AddToEntry(adds, x, l) == adds[x := [l]];
    AddToFresh(adds[x := [l]], y, l);
  }

  /** alice's "#hiking" on an empty map: recipient 1 gets the hiking list. */
  lemma AliceHikes(dir: map<Handle, seq<RecipientId>>, a1: Additions)
    requires ScenarioDirectory(dir)
    requires a1 == AfterHashtag(dir, "alice", "hiking", map[])
    ensures a1.Keys == {"1"} && a1["1"] == [HikingShoes]
  {
    assert ContactListIdForHashtag("hiking") == Some(HikingShoes);
    AddToFresh(map[], "1", HikingShoes);
  }

  /** bob's "#running" after alice's step: recipients 2 and 3 get the running list, 1 is untouched. */
  lemma BobRuns(dir: map<Handle, seq<RecipientId>>, a1: Additions, a2: Additions)
    requires ScenarioDirectory(dir)
    requires a1.Keys == {"1"} && a1["1"] == [HikingShoes]
    requires a2 == AfterHashtag(dir, "bob", "running", a1)
    ensures a2.Keys == {"1", "2", "3"}
    ensures a2["1"] == [HikingShoes] && a2["2"] == [RunningShoes] && a2["3"] == [RunningShoes]
  {
    assert ContactListIdForHashtag("running") == Some(RunningShoes);
    assert "2" !in a1 && "3" !in a1;
    AddToTwoFresh(a1, "2", "3", RunningShoes);
  }

  /** alice tweets "#hiking great day", bob "#running fast": three recipients, one list each. */
  lemma ScenarioTwoHandles(dir: map<Handle, seq<RecipientId>>, tweets: seq<Tweet>)
    requires ScenarioDirectory(dir)
    requires tweets == [Tweet("alice", "#hiking great day"), Tweet("bob", "#running fast")]
    ensures Sweep(dir, tweets, map[]).Success?
    ensures var adds := Sweep(dir, tweets, map[]).value;
      && adds.Keys == {"1", "2", "3"}
      && adds["1"] == [HikingShoes] && adds["2"] == [RunningShoes] && adds["3"] == [RunningShoes]
  {
    Tokenizer.HashtagsExample(tweets[0].text);
    SweepStep(dir, tweets, map[], ["hiking"]);
    var a1 := AfterHashtag(dir, "alice", "hiking", map[]);
    AfterOneHashtag(dir, "alice", "hiking", map[]);
    Tokenizer.HashtagsExampleRunning(tweets[1..][0].text);
    SweepStep(dir, tweets[1..], a1, ["running"]);
    var a2 := AfterHashtag(dir, "bob", "running", a1);
    AfterOneHashtag(dir, "bob", "running", a1);
    assert tweets[1..][1..] == [];
    assert Sweep(dir, tweets, map[]) == Success(a2);
    AliceHikes(dir, a1);
    BobRuns(dir, a1, a2);
  }

  /** bob's "#hiking" on an empty map: recipients 2 and 3 get the hiking list. */
  lemma BobHikes(dir: map<Handle, seq<RecipientId>>, a1: Additions)
    requires ScenarioDirectory(dir)
    requires a1 == AfterHashtag(dir, "bob", "hiking", map[])
    ensures a1.Keys == {"2", "3"} && a1["2"] == [HikingShoes] && a1["3"] == [HikingShoes]
  {
    assert ContactListIdForHashtag("hiking") == Some(HikingShoes);
    AddToTwoFresh(map[], "2", "3", HikingShoes);
  }

  /** bob tweets "#hiking #hiking": each of bob's recipients gets the hiking list once. */
  lemma ScenarioRepeatedHashtag(dir: map<Handle, seq<RecipientId>>, tweets: seq<Tweet>)
    requires ScenarioDirectory(dir)
    requires tweets == [Tweet("bob", "#hiking #hiking")]
    ensures Sweep(dir, tweets, map[]).Success?
    ensures var adds := Sweep(dir, tweets, map[]).value;
      adds.Keys == {"2", "3"} && adds["2"] == [HikingShoes] && adds["3"] == [HikingShoes]
  {
    Tokenizer.HashtagsExampleRepeated(tweets[0].text);
    SweepStep(dir, tweets, map[], ["hiking", "hiking"]);
    assert tweets[1..] == [];
    var a1 := AfterHashtag(dir, "bob", "hiking", map[]);
    assert AfterHashtags(dir, "bob", ["hiking", "hiking"], map[]) == AfterHashtags(dir, "bob", ["hiking"], a1) by {
      assert ["hiking", "hiking"][1..] == ["hiking"];
    }
    AfterOneHashtag(dir, "bob", "hiking", a1);
    AfterHashtagIdempotent(dir, "bob", "hiking", map[]);
    assert Sweep(dir, tweets, map[]) == Success(a1);
    BobHikes(dir, a1);
  }

  /** bob tweets "#hiking great day" twice: the second status adds nothing new. */
  lemma ScenarioRepeatedStatus(dir: map<Handle, seq<RecipientId>>, tweets: seq<Tweet>)
    requires ScenarioDirectory(dir)
    requires tweets == [Tweet("bob", "#hiking great day"), Tweet("bob", "#hiking great day")]
    ensures Sweep(dir, tweets, map[]).Success?
    ensures var adds := Sweep(dir, tweets, map[]).value;
      adds.Keys == {"2", "3"} && adds["2"] == [HikingShoes] && adds["3"] == [HikingShoes]
  {
    Tokenizer.HashtagsExample(tweets[0].text);
    SweepStep(dir, tweets, map[], ["hiking"]);
    var a1 := AfterHashtag(dir, "bob", "hiking", map[]);
    AfterOneHashtag(dir, "bob", "hiking", map[]);
    Tokenizer.HashtagsExample(tweets[1..][0].text);
    SweepStep(dir, tweets[1..], a1, ["hiking"]);
    AfterOneHashtag(dir, "bob", "hiking", a1);
    AfterHashtagIdempotent(dir, "bob", "hiking", map[]);
    assert tweets[1..][1..] == [];
    assert Sweep(dir, tweets, map[]) == Success(a1);
    BobHikes(dir, a1);
  }

  /** A tweet from a handle the directory does not know adds nothing. */
  lemma ScenarioUnknownHandle(dir: map<Handle, seq<RecipientId>>, tweets: seq<Tweet>)
    requires ScenarioDirectory(dir)
    requires tweets == [Tweet("carol", "#hiking great day")]
    ensures Sweep(dir, tweets, map[]) == Success(map[])
  {
    Tokenizer.HashtagsExample(tweets[0].text);
    SweepStep(dir, tweets, map[], ["hiking"]);
    AfterOneHashtag(dir, "carol", "hiking", map[]);
    assert tweets[1..] == [];
  }
}
