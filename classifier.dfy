/** The fixed hashtag -> Engage contact list table. */
module Classifier {
  import opened Types

  const HikingShoes: ContactListId := 4800385
  const WalkingShoes: ContactListId := 4822445
  const BeachShoes: ContactListId := 4822450
  const RunningShoes: ContactListId := 4822447

  const HikingTags: set<string> := {"hike", "hiking", "mountain"}
  const WalkingTags: set<string> := {"walk", "walking", "steps"}
  const BeachTags: set<string> := {"beach", "ocean", "coast"}
  const RunningTags: set<string> := {"running", "jogging", "marathon"}

  /** Every hashtag the table recognises (without the leading '#'). */
  const KnownTags: set<string> := HikingTags + WalkingTags + BeachTags + RunningTags

  /** The tags that select a given contact list: the inverse of the table. */
  function TagsFor(listId: ContactListId): set<string>
  {
    if listId == HikingShoes then HikingTags
    else if listId == WalkingShoes then WalkingTags
    else if listId == BeachShoes then BeachTags
    else if listId == RunningShoes then RunningTags
    else {}
  }

  /** The four contact lists the table can produce. */
  const TargetLists: set<ContactListId> := {HikingShoes, WalkingShoes, BeachShoes, RunningShoes}

  /** Exact, case-sensitive lookup; `None` models the `null` of the default branch. */
  function ContactListIdForHashtag(hashtag: string): (r: Option<ContactListId>)
    ensures r.Some? <==> hashtag in KnownTags
    ensures r.Some? ==> r.value in TargetLists && hashtag in TagsFor(r.value)
  {
    match hashtag
    case "hike" | "hiking" | "mountain" => Some(4800385)
    case "walk" | "walking" | "steps" => Some(4822445)
    case "beach" | "ocean" | "coast" => Some(4822450)
    case "running" | "jogging" | "marathon" => Some(4822447)
    case _ => None
  }

  /** Each group has three hashtags, and no hashtag is in two groups. */
  lemma GroupsDisjoint()
    ensures |HikingTags| == 3 && |WalkingTags| == 3 && |BeachTags| == 3 && |RunningTags| == 3
    ensures HikingTags !! WalkingTags && HikingTags !! BeachTags && HikingTags !! RunningTags
    ensures WalkingTags !! BeachTags && WalkingTags !! RunningTags && BeachTags !! RunningTags
  {
  }

  /** The table has exactly twelve entries, and the four lists are distinct. */
  lemma TableShape()
    ensures |KnownTags| == 12
    ensures |TargetLists| == 4
  {
    GroupsDisjoint();
    var hw := HikingTags + WalkingTags;
    assert |hw| == 6;
    var br := BeachTags + RunningTags;
    assert |br| == 6;
    assert hw !! br;
    assert KnownTags == hw + br;
  }

  /** The lookup and `TagsFor` are inverse to each other. */
  lemma LookupInverse(hashtag: string, listId: ContactListId)
    ensures ContactListIdForHashtag(hashtag) == Some(listId) <==> hashtag in TagsFor(listId)
  {
  }

  /** Two hashtags select the same list exactly when they belong to the same group. */
  lemma SameListIffSameGroup(a: string, b: string)
    requires a in KnownTags && b in KnownTags
    ensures ContactListIdForHashtag(a) == ContactListIdForHashtag(b) <==>
            exists g :: g in TargetLists && a in TagsFor(g) && b in TagsFor(g)
  {
    var la := ContactListIdForHashtag(a).value;
    if ContactListIdForHashtag(a) == ContactListIdForHashtag(b) {
      assert la in TargetLists && a in TagsFor(la) && b in TagsFor(la);
    }
  }

  /** Matching is case-sensitive: capitalised or prefixed tags, and the empty tag, are not recognised. */
  lemma CaseSensitive()
    ensures ContactListIdForHashtag("Hiking") == None
    ensures ContactListIdForHashtag("HIKE") == None
    ensures ContactListIdForHashtag("#hike") == None
    ensures ContactListIdForHashtag("") == None
  {
  }
}
