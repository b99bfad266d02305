/**
 * The `additions` accumulator of `_processHashtag` and the sweep over all
 * tweets that feeds it: recipient id -> contact list ids to add.
 */
module Aggregator {
  import opened Types
  import opened Classifier
  import Tokenizer

  type Additions = map<RecipientId, seq<ContactListId>>

  /** The list ids queued for a recipient; an absent key reads as none. */
  function Entry(adds: Additions, id: RecipientId): seq<ContactListId>
  {
    if id in adds then adds[id] else []
  }

  /** The `indexOf`-guarded `push`: append `listId` unless it is already there. */
  function AddListId(entry: seq<ContactListId>, listId: ContactListId): (r: seq<ContactListId>)
    ensures listId in r
    ensures entry <= r && |r| <= |entry| + 1
    ensures forall x :: x in r ==> x in entry || x == listId
  {
    if listId in entry then entry else entry + [listId]
  }

  /** One recipient's step of the `forEach` in `_processHashtag`. */
  function AddToEntry(adds: Additions, id: RecipientId, listId: ContactListId): Additions
  {
    adds[id := AddListId(Entry(adds, id), listId)]
  }

  /** The `forEach` over a handle's recipient ids, in order. */
  function AddToAll(adds: Additions, ids: seq<RecipientId>, listId: ContactListId): Additions
    decreases |ids|
  {
    if ids == [] then adds else AddToAll(AddToEntry(adds, ids[0], listId), ids[1..], listId)
  }

  /** `_processHashtag(handle, hashtag)` on the additions, given the directory's handle -> ids map. */
  function AfterHashtag(dir: map<Handle, seq<RecipientId>>, handle: Handle, hashtag: string, adds: Additions): Additions
  {
    if handle !in dir then adds
    else match ContactListIdForHashtag(hashtag)
      case None => adds
      case Some(listId) => AddToAll(adds, dir[handle], listId)
  }

  /** The inner `forEach` over one tweet's hashtags. */
  function AfterHashtags(dir: map<Handle, seq<RecipientId>>, handle: Handle, tags: seq<string>, adds: Additions): Additions
    decreases |tags|
  {
    if tags == [] then adds else AfterHashtags(dir, handle, tags[1..], AfterHashtag(dir, handle, tags[0], adds))
  }

  /** The outer `forEach` over the statuses; a blank text throws and ends the sweep. */
  function Sweep(dir: map<Handle, seq<RecipientId>>, tweets: seq<Tweet>, adds: Additions): Result<Additions, Tokenizer.TweetError>
    decreases |tweets|
  {
    if tweets == [] then Success(adds)
    else match Tokenizer.Hashtags(tweets[0].text)
      case Failure(e) => Failure(e)
      case Success(tags) => Sweep(dir, tweets[1..], AfterHashtags(dir, tweets[0].screenName, tags, adds))
  }

  // ----------------------------------------------------------- invariants

  predicate DupFree(s: seq<ContactListId>)
  {
    forall i, j :: 0 <= i < j < |s| ==> s[i] != s[j]
  }

  /** Some handle of the directory lists recipient `id`. */
  ghost predicate Known(dir: map<Handle, seq<RecipientId>>, id: RecipientId)
  {
    exists h :: h in dir && id in dir[h]
  }

  /**
   * What the sweep keeps of `additions`: every entry is non-empty, free of
   * duplicates, names only lists of the table, and belongs to a recipient of
   * the directory.
   */
  ghost predicate WellFormed(dir: map<Handle, seq<RecipientId>>, adds: Additions)
  {
    forall id :: id in adds ==>
      && adds[id] != []
      && DupFree(adds[id])
      && (forall x :: x in adds[id] ==> x in TargetLists)
      && Known(dir, id)
  }

  /** Entry-wise growth: every old entry is a prefix of the new one. */
  ghost predicate Grows(adds: Additions, adds': Additions)
  {
    forall id :: id in adds ==> id in adds' && adds[id] <= adds'[id]
  }

  /** Hashtag `tag` from `handle` makes `_processHashtag` queue list `l` for recipient `id`. */
  predicate Brings(dir: map<Handle, seq<RecipientId>>, handle: Handle, tag: string, id: RecipientId, l: ContactListId)
  {
    handle in dir && id in dir[handle] && ContactListIdForHashtag(tag) == Some(l)
  }

  /** Status `i` carries hashtag `tag`, and that hashtag from its author queues `l` for `id`. */
  predicate StatusBrings(dir: map<Handle, seq<RecipientId>>, tweets: seq<Tweet>, i: int, tag: string,
                         id: RecipientId, l: ContactListId)
  {
    && 0 <= i < |tweets|
    && Tokenizer.Hashtags(tweets[i].text).Success?
    && tag in Tokenizer.Hashtags(tweets[i].text).value
    && Brings(dir, tweets[i].screenName, tag, id, l)
  }

  // ---------------------------------------------------------------- lemmas

  /** The branches of `_processHashtag` for one recipient are the one step `AddToEntry`. */
  lemma GuardedPush(adds: Additions, id: RecipientId, listId: ContactListId)
    ensures AddToEntry(adds, id, listId) ==
            if id !in adds then adds[id := [listId]]
            else if listId !in adds[id] then adds[id := adds[id] + [listId]]
            else adds
  {
    if id !in adds {
      assert AddListId([], listId) == [listId];
    } else if listId in adds[id] {
      assert adds[id := adds[id]] == adds;
    }
  }

  /** `AddToAll` from position `i` of the ids: one step, then the rest. */
  lemma AddToAllStep(adds: Additions, ids: seq<RecipientId>, i: nat, listId: ContactListId)
    requires i < |ids|
    ensures AddToAll(adds, ids[i..], listId) == AddToAll(AddToEntry(adds, ids[i], listId), ids[i + 1..], listId)
  {
    assert ids[i..][0] == ids[i] && ids[i..][1..] == ids[i + 1..];
  }

  lemma AddListIdIdempotent(entry: seq<ContactListId>, listId: ContactListId)
    ensures AddListId(AddListId(entry, listId), listId) == AddListId(entry, listId)
  {
  }

  lemma AddListIdDupFree(entry: seq<ContactListId>, listId: ContactListId)
    requires DupFree(entry)
    ensures DupFree(AddListId(entry, listId))
  {
  }

  /**
   * Closed form of the loop: exactly the listed recipients gain `listId`
   * (once, at the end, unless already present); every other entry is untouched.
   */
  lemma {:induction false} AddToAllClosedForm(adds: Additions, ids: seq<RecipientId>, listId: ContactListId)
    ensures forall id :: id in AddToAll(adds, ids, listId) <==> id in adds || id in ids
    ensures forall id :: id in AddToAll(adds, ids, listId) ==>
      AddToAll(adds, ids, listId)[id] == if id in ids then AddListId(Entry(adds, id), listId) else adds[id]
    decreases |ids|
  {
    if ids != [] {
      var adds1 := AddToEntry(adds, ids[0], listId);
      AddToAllClosedForm(adds1, ids[1..], listId);
      var r := AddToAll(adds1, ids[1..], listId);
      assert r == AddToAll(adds, ids, listId);
      forall id ensures id in r <==> id in adds || id in ids {
        assert id in ids <==> id == ids[0] || id in ids[1..];
      }
      forall id | id in r
        ensures r[id] == if id in ids then AddListId(Entry(adds, id), listId) else adds[id]
      {
        assert id in ids <==> id == ids[0] || id in ids[1..];
        if id == ids[0] {
          AddListIdIdempotent(Entry(adds, id), listId);
          assert Entry(adds1, id) == AddListId(Entry(adds, id), listId);
        } else {
          assert Entry(adds1, id) == Entry(adds, id);
        }
      }
    }
  }

  /** After `_processHashtag` every recipient of the handle has the list id queued. */
  lemma AddToAllCovers(adds: Additions, ids: seq<RecipientId>, listId: ContactListId)
    ensures forall id :: id in ids ==> id in AddToAll(adds, ids, listId) && listId in AddToAll(adds, ids, listId)[id]
  {
    AddToAllClosedForm(adds, ids, listId);
  }

  /** Entries only grow: each old entry is a prefix of its new value. */
  lemma AddToAllGrows(adds: Additions, ids: seq<RecipientId>, listId: ContactListId)
    ensures Grows(adds, AddToAll(adds, ids, listId))
  {
    AddToAllClosedForm(adds, ids, listId);
  }

  /** Recipients not listed for the handle keep their entry, or stay absent. */
  lemma AddToAllOthers(adds: Additions, ids: seq<RecipientId>, listId: ContactListId, other: RecipientId)
    requires other !in ids
    ensures other in AddToAll(adds, ids, listId) <==> other in adds
    ensures other in adds ==> AddToAll(adds, ids, listId)[other] == adds[other]
  {
    AddToAllClosedForm(adds, ids, listId);
  }

  /** Entries stay duplicate-free. */
  lemma AddToAllDupFree(adds: Additions, ids: seq<RecipientId>, listId: ContactListId)
    requires forall id :: id in adds ==> DupFree(adds[id])
    ensures forall id :: id in AddToAll(adds, ids, listId) ==> DupFree(AddToAll(adds, ids, listId)[id])
  {
    AddToAllClosedForm(adds, ids, listId);
  }

  /** Repeating the same hashtag from the same handle changes nothing. */
  lemma AfterHashtagIdempotent(dir: map<Handle, seq<RecipientId>>, handle: Handle, hashtag: string, adds: Additions)
    ensures AfterHashtag(dir, handle, hashtag, AfterHashtag(dir, handle, hashtag, adds)) ==
            AfterHashtag(dir, handle, hashtag, adds)
  {
    if handle in dir && ContactListIdForHashtag(hashtag).Some? {
      var ids, l := dir[handle], ContactListIdForHashtag(hashtag).value;
      var once := AddToAll(adds, ids, l);
      var twice := AddToAll(once, ids, l);
      AddToAllClosedForm(adds, ids, l);
      AddToAllClosedForm(once, ids, l);
      forall id | id in twice ensures twice[id] == once[id] {
        if id in ids { AddListIdIdempotent(Entry(adds, id), l); }
      }
    }
  }

  /** An unknown handle, or a hashtag the table does not know, leaves the additions alone. */
  lemma AfterHashtagNoEffect(dir: map<Handle, seq<RecipientId>>, handle: Handle, hashtag: string, adds: Additions)
    requires handle !in dir || hashtag !in KnownTags
    ensures AfterHashtag(dir, handle, hashtag, adds) == adds
  {
  }

  /** One hashtag keeps the additions well formed and only grows them. */
  lemma AfterHashtagWellFormed(dir: map<Handle, seq<RecipientId>>, handle: Handle, hashtag: string, adds: Additions)
    requires WellFormed(dir, adds)
    ensures WellFormed(dir, AfterHashtag(dir, handle, hashtag, adds))
    ensures Grows(adds, AfterHashtag(dir, handle, hashtag, adds))
  {
    if handle in dir && ContactListIdForHashtag(hashtag).Some? {
      var ids, l := dir[handle], ContactListIdForHashtag(hashtag).value;
      var r := AddToAll(adds, ids, l);
      AddToAllClosedForm(adds, ids, l);
      forall id | id in r
        ensures r[id] != [] && DupFree(r[id]) && (forall x :: x in r[id] ==> x in TargetLists) && Known(dir, id)
      {
        if id in ids {
          assert handle in dir && id in dir[handle];
          if id in adds { AddListIdDupFree(adds[id], l); }
        }
      }
    }
  }

  /** One tweet's hashtags keep the additions well formed and only grow them. */
  lemma {:induction false} AfterHashtagsWellFormed(dir: map<Handle, seq<RecipientId>>, handle: Handle, tags: seq<string>, adds: Additions)
    requires WellFormed(dir, adds)
    ensures WellFormed(dir, AfterHashtags(dir, handle, tags, adds))
    ensures Grows(adds, AfterHashtags(dir, handle, tags, adds))
    decreases |tags|
  {
    if tags != [] {
      var adds1 := AfterHashtag(dir, handle, tags[0], adds);
      AfterHashtagWellFormed(dir, handle, tags[0], adds);
      AfterHashtagsWellFormed(dir, handle, tags[1..], adds1);
    }
  }

  /** A successful sweep keeps the additions well formed and only grows them. */
  lemma {:induction false} SweepWellFormed(dir: map<Handle, seq<RecipientId>>, tweets: seq<Tweet>, adds: Additions)
    requires WellFormed(dir, adds)
    ensures Sweep(dir, tweets, adds).Success? ==>
      WellFormed(dir, Sweep(dir, tweets, adds).value) && Grows(adds, Sweep(dir, tweets, adds).value)
    decreases |tweets|
  {
    if tweets != [] {
      match Tokenizer.Hashtags(tweets[0].text)
      case Failure(_) =>
      case Success(tags) =>
        var adds1 := AfterHashtags(dir, tweets[0].screenName, tags, adds);
        AfterHashtagsWellFormed(dir, tweets[0].screenName, tags, adds);
        SweepWellFormed(dir, tweets[1..], adds1);
    }
  }

  /** The sweep fails exactly when some tweet's text is blank. */
  lemma {:induction false} SweepFailsIffBlank(dir: map<Handle, seq<RecipientId>>, tweets: seq<Tweet>, adds: Additions)
    ensures Sweep(dir, tweets, adds).Failure? <==>
            exists i :: 0 <= i < |tweets| && Tokenizer.Blank(tweets[i].text)
    decreases |tweets|
  {
    if tweets != [] {
      match Tokenizer.Hashtags(tweets[0].text)
      case Failure(_) =>
      case Success(tags) =>
        SweepFailsIffBlank(dir, tweets[1..], AfterHashtags(dir, tweets[0].screenName, tags, adds));
        if exists i :: 0 <= i < |tweets| && Tokenizer.Blank(tweets[i].text) {
          var i :| 0 <= i < |tweets| && Tokenizer.Blank(tweets[i].text);
          assert i > 0 && tweets[1..][i - 1] == tweets[i];
        }
        if exists i :: 0 <= i < |tweets[1..]| && Tokenizer.Blank(tweets[1..][i].text) {
          var i :| 0 <= i < |tweets[1..]| && Tokenizer.Blank(tweets[1..][i].text);
          assert tweets[i + 1] == tweets[1..][i];
        }
    }
  }

  /**
   * From empty additions, one recognised hashtag from a known handle gives each
   * of the handle's recipients exactly that one list, and nobody else anything.
   */
  lemma FirstHashtag(dir: map<Handle, seq<RecipientId>>, handle: Handle, hashtag: string)
    requires handle in dir && hashtag in KnownTags
    ensures AfterHashtag(dir, handle, hashtag, map[]) ==
            map id | id in dir[handle] :: [ContactListIdForHashtag(hashtag).value]
  {
    var l := ContactListIdForHashtag(hashtag).value;
    var r := AfterHashtag(dir, handle, hashtag, map[]);
    var expected := map id | id in dir[handle] :: [l];
    AddToAllClosedForm(map[], dir[handle], l);
    assert r.Keys == expected.Keys;
    forall id | id in r ensures r[id] == expected[id] {
      assert Entry(map[], id) == [];
    }
  }

  /** One step of the sweep over a tweet whose hashtags are known. */
  lemma SweepStep(dir: map<Handle, seq<RecipientId>>, tweets: seq<Tweet>, adds: Additions, tags: seq<string>)
    requires tweets != [] && Tokenizer.Hashtags(tweets[0].text) == Success(tags)
    ensures Sweep(dir, tweets, adds) == Sweep(dir, tweets[1..], AfterHashtags(dir, tweets[0].screenName, tags, adds))
  {
  }

  /** A one-hashtag tweet is one `_processHashtag` call. */
  lemma AfterOneHashtag(dir: map<Handle, seq<RecipientId>>, handle: Handle, tag: string, adds: Additions)
    ensures AfterHashtags(dir, handle, [tag], adds) == AfterHashtag(dir, handle, tag, adds)
  {
    assert [tag][1..] == [];
  }

  /** After `_processHashtag`, a recipient's entry holds what it held plus the hashtag's list, if the handle lists it. */
  lemma AfterHashtagMember(dir: map<Handle, seq<RecipientId>>, handle: Handle, tag: string, adds: Additions,
                           id: RecipientId, l: ContactListId)
    ensures l in Entry(AfterHashtag(dir, handle, tag, adds), id) <==> l in Entry(adds, id) || Brings(dir, handle, tag, id, l)
  {
    if handle in dir && ContactListIdForHashtag(tag).Some? {
      var listId := ContactListIdForHashtag(tag).value;
      AddToAllClosedForm(adds, dir[handle], listId);
      var r := AddToAll(adds, dir[handle], listId);
      if id in dir[handle] {
        var e := Entry(adds, id);
        assert Entry(r, id) == AddListId(e, listId);
        assert l in e ==> l in AddListId(e, listId) by {
          if l in e {
            var k :| 0 <= k < |e| && e[k] == l;
            assert AddListId(e, listId)[k] == l;
          }
        }
      } else {
        assert Entry(r, id) == Entry(adds, id);
      }
    }
  }

  /** After one tweet's hashtags, an entry holds what it held plus the lists those hashtags bring. */
  lemma {:induction false} AfterHashtagsMember(dir: map<Handle, seq<RecipientId>>, handle: Handle, tags: seq<string>,
                                               adds: Additions, id: RecipientId, l: ContactListId)
    ensures l in Entry(AfterHashtags(dir, handle, tags, adds), id) <==>
            l in Entry(adds, id) || exists t :: t in tags && Brings(dir, handle, t, id, l)
    decreases |tags|
  {
    if tags != [] {
      var adds1 := AfterHashtag(dir, handle, tags[0], adds);
      AfterHashtagMember(dir, handle, tags[0], adds, id, l);
      AfterHashtagsMember(dir, handle, tags[1..], adds1, id, l);
      if exists t :: t in tags && Brings(dir, handle, t, id, l) {
        var t :| t in tags && Brings(dir, handle, t, id, l);
        assert t == tags[0] || t in tags[1..];
      }
      if exists t :: t in tags[1..] && Brings(dir, handle, t, id, l) {
        var t :| t in tags[1..] && Brings(dir, handle, t, id, l);
        assert t in tags;
      }
    }
  }

  /**
   * What a completed sweep queues: list `l` is in recipient `id`'s entry exactly
   * when it was there at the start or some status carries a hashtag of `l` and
   * was posted by a handle that lists `id`.
   */
  lemma {:induction false} SweepMember(dir: map<Handle, seq<RecipientId>>, tweets: seq<Tweet>, adds: Additions,
                                       r: Additions, id: RecipientId, l: ContactListId)
    requires Sweep(dir, tweets, adds) == Success(r)
    ensures l in Entry(r, id) <==>
            l in Entry(adds, id) || exists i, t :: StatusBrings(dir, tweets, i, t, id, l)
    decreases |tweets|
  {
    if tweets != [] {
      var tags := Tokenizer.Hashtags(tweets[0].text).value;
      var handle := tweets[0].screenName;
      var adds1 := AfterHashtags(dir, handle, tags, adds);
      AfterHashtagsMember(dir, handle, tags, adds, id, l);
      SweepMember(dir, tweets[1..], adds1, r, id, l);
      if exists i, t :: StatusBrings(dir, tweets, i, t, id, l) {
        var i, t :| StatusBrings(dir, tweets, i, t, id, l);
        if i == 0 {
          assert t in tags && Brings(dir, handle, t, id, l);
        } else {
          assert StatusBrings(dir, tweets[1..], i - 1, t, id, l);
        }
      }
      if exists t :: t in tags && Brings(dir, handle, t, id, l) {
        var t :| t in tags && Brings(dir, handle, t, id, l);
        assert StatusBrings(dir, tweets, 0, t, id, l);
      }
      if exists i, t :: StatusBrings(dir, tweets[1..], i, t, id, l) {
        var i, t :| StatusBrings(dir, tweets[1..], i, t, id, l);
        assert tweets[1..][i] == tweets[i + 1];
        assert StatusBrings(dir, tweets, i + 1, t, id, l);
      }
    }
  }
}
