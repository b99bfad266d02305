/**
 * The calls `_handleAdditions` issues: for each recipient of `additions`, in
 * the order `for...in` visits the keys, one `addContactToContactList` call per
 * list id of its entry, in entry order.
 */
module Applier {
  import opened Types
  import opened Aggregator

  /** The `forEach` of one entry: one add call per list id, in order. */
  function AddCallsOf(id: RecipientId, lists: seq<ContactListId>): seq<ExternalCall>
    decreases |lists|
  {
    if lists == [] then [] else AddCallsOf(id, lists[..|lists| - 1]) + [AddContact(id, lists[|lists| - 1])]
  }

  /** The calls issued when the keys are visited in `order`. */
  function CallsFor(adds: Additions, order: seq<RecipientId>): seq<ExternalCall>
    decreases |order|
  {
    if order == [] then []
    else CallsFor(adds, order[..|order| - 1]) + AddCallsOf(order[|order| - 1], Entry(adds, order[|order| - 1]))
  }

  /** `for...in` visits every key exactly once, in an order the model leaves open. */
  predicate Enumerates(order: seq<RecipientId>, keys: set<RecipientId>)
  {
    && (forall i, j :: 0 <= i < j < |order| ==> order[i] != order[j])
    && (forall k :: k in order ==> k in keys)
    && (forall k :: k in keys ==> k in order)
  }

  /** Part way through `for...in`: `order` visited once each, `pending` still to visit, together `keys`. */
  predicate Visiting(order: seq<RecipientId>, pending: set<RecipientId>, keys: set<RecipientId>)
  {
    && pending <= keys
    && (forall i, j :: 0 <= i < j < |order| ==> order[i] != order[j])
    && (forall k :: k in order ==> k in keys && k !in pending)
    && (forall k :: k in keys ==> k in order || k in pending)
  }

  /** Sequence without repeated elements. */
  predicate Distinct(s: seq<ExternalCall>)
  {
    forall i, j :: 0 <= i < j < |s| ==> s[i] != s[j]
  }

  /** The (recipient, list) pairs of `additions`, as add calls. */
  function Pairs(adds: Additions): set<ExternalCall>
  {
    set k, l | k in adds && l in adds[k] :: AddContact(k, l)
  }

  /** The sum of the entry lengths of the keys in `order`. */
  function TotalLength(adds: Additions, order: seq<RecipientId>): nat
    decreases |order|
  {
    if order == [] then 0 else TotalLength(adds, order[..|order| - 1]) + |Entry(adds, order[|order| - 1])|
  }

  // ---------------------------------------------------------------- lemmas

  /** Visiting one more pending key keeps the loop's bookkeeping; nothing pending means all visited. */
  lemma VisitOne(order: seq<RecipientId>, pending: set<RecipientId>, keys: set<RecipientId>, k: RecipientId)
    requires Visiting(order, pending, keys) && k in pending
    ensures Visiting(order + [k], pending - {k}, keys)
  {
  }

  lemma VisitedAll(order: seq<RecipientId>, keys: set<RecipientId>)
    requires Visiting(order, {}, keys)
    ensures Enumerates(order, keys)
  {
  }

  /** The calls issued so far, after one more entry has been handled. */
  lemma IssueStep(start: seq<ExternalCall>, adds: Additions, order: seq<RecipientId>, k: RecipientId,
                  before: seq<ExternalCall>, after: seq<ExternalCall>)
    requires k in adds
    requires before == start + CallsFor(adds, order)
    requires after == before + AddCallsOf(k, adds[k])
    ensures after == start + CallsFor(adds, order + [k])
  {
    CallsForSnoc(adds, order, k);
  }

  /** Visiting one more key appends that entry's calls. */
  lemma CallsForSnoc(adds: Additions, order: seq<RecipientId>, k: RecipientId)
    requires k in adds
    ensures CallsFor(adds, order + [k]) == CallsFor(adds, order) + AddCallsOf(k, adds[k])
  {
    assert (order + [k])[..|order|] == order;
  }

  /** One entry's calls: exactly its list ids, for that recipient, in order. */
  lemma {:induction false} AddCallsOfShape(id: RecipientId, lists: seq<ContactListId>)
    ensures |AddCallsOf(id, lists)| == |lists|
    ensures forall i :: 0 <= i < |lists| ==> AddCallsOf(id, lists)[i] == AddContact(id, lists[i])
    decreases |lists|
  {
    if lists != [] {
      AddCallsOfShape(id, lists[..|lists| - 1]);
    }
  }

  /** A call is issued exactly for a visited key and a list id of its entry. */
  lemma {:induction false} CallsForMember(adds: Additions, order: seq<RecipientId>, c: ExternalCall)
    ensures c in CallsFor(adds, order) <==>
            c.AddContact? && c.recipientId in order && c.contactListId in Entry(adds, c.recipientId)
    decreases |order|
  {
    if order != [] {
      var last := order[|order| - 1];
      var init := order[..|order| - 1];
      CallsForMember(adds, init, c);
      AddCallsOfShape(last, Entry(adds, last));
      var tail := AddCallsOf(last, Entry(adds, last));
      assert c in CallsFor(adds, order) <==> c in CallsFor(adds, init) || c in tail;
      if c in tail {
        var i :| 0 <= i < |tail| && tail[i] == c;
        assert c.recipientId == last && c.contactListId == Entry(adds, last)[i];
      }
      if c.AddContact? && c.recipientId == last && c.contactListId in Entry(adds, last) {
        var i :| 0 <= i < |Entry(adds, last)| && Entry(adds, last)[i] == c.contactListId;
        assert tail[i] == c;
      }
      assert c.AddContact? ==> (c.recipientId in order <==> c.recipientId in init || c.recipientId == last);
    }
  }

  /** With a complete visiting order, the issued calls are exactly the pairs of `additions`. */
  lemma CallsAreThePairs(adds: Additions, order: seq<RecipientId>)
    requires Enumerates(order, adds.Keys)
    ensures forall c :: c in CallsFor(adds, order) <==> c in Pairs(adds)
  {
    forall c ensures c in CallsFor(adds, order) <==> c in Pairs(adds) {
      CallsForMember(adds, order, c);
      if c in Pairs(adds) {
        var k, l :| k in adds && l in adds[k] && c == AddContact(k, l);
      }
    }
  }

  /** One entry free of duplicates gives distinct calls. */
  lemma AddCallsOfDistinct(id: RecipientId, lists: seq<ContactListId>)
    requires DupFree(lists)
    ensures Distinct(AddCallsOf(id, lists))
  {
    AddCallsOfShape(id, lists);
  }

  /** Duplicate-free entries and a visiting order without repeats issue no call twice. */
  lemma {:induction false} CallsForDistinct(adds: Additions, order: seq<RecipientId>)
    requires forall i, j :: 0 <= i < j < |order| ==> order[i] != order[j]
    requires forall k :: k in adds ==> DupFree(adds[k])
    ensures Distinct(CallsFor(adds, order))
    decreases |order|
  {
    if order != [] {
      var last := order[|order| - 1];
      var init := order[..|order| - 1];
      CallsForDistinct(adds, init);
      assert DupFree(Entry(adds, last));
      AddCallsOfDistinct(last, Entry(adds, last));
      AddCallsOfShape(last, Entry(adds, last));
      var front, tail := CallsFor(adds, init), AddCallsOf(last, Entry(adds, last));
      forall i, j | 0 <= i < |front| && 0 <= j < |tail| ensures front[i] != tail[j] {
        CallsForMember(adds, init, front[i]);
        assert last !in init;
      }
      var all := front + tail;
      forall i, j | 0 <= i < j < |all| ensures all[i] != all[j] {
        if j < |front| {
        } else if i >= |front| {
          assert all[i] == tail[i - |front|] && all[j] == tail[j - |front|];
        } else {
          assert all[i] == front[i] && all[j] == tail[j - |front|];
        }
      }
    }
  }

  /** The number of calls is the sum of the entry lengths of the visited keys. */
  lemma {:induction false} CallsForLength(adds: Additions, order: seq<RecipientId>)
    ensures |CallsFor(adds, order)| == TotalLength(adds, order)
    decreases |order|
  {
    if order != [] {
      var last := order[|order| - 1];
      CallsForLength(adds, order[..|order| - 1]);
      AddCallsOfShape(last, Entry(adds, last));
    }
  }

  /** A sequence without repeats has as many elements as its set of elements. */
  lemma {:induction false} DistinctCard(s: seq<ExternalCall>)
    requires Distinct(s)
    ensures |set c | c in s| == |s|
    decreases |s|
  {
    if s != [] {
      var init := s[..|s| - 1];
      DistinctCard(init);
      assert s[|s| - 1] !in init;
      assert (set c | c in s) == (set c | c in init) + {s[|s| - 1]};
    }
  }

  /**
   * Exactly one add call per (recipient, list) pair: with duplicate-free entries
   * and a complete visiting order, the calls are distinct, they are the pairs,
   * and their number is the number of pairs and the sum of the entry lengths.
   */
  lemma OneCallPerPair(adds: Additions, order: seq<RecipientId>)
    requires Enumerates(order, adds.Keys)
    requires forall k :: k in adds ==> DupFree(adds[k])
    ensures Distinct(CallsFor(adds, order))
    ensures (set c | c in CallsFor(adds, order)) == Pairs(adds)
    ensures |CallsFor(adds, order)| == |Pairs(adds)| == TotalLength(adds, order)
  {
    CallsForDistinct(adds, order);
    CallsAreThePairs(adds, order);
    DistinctCard(CallsFor(adds, order));
    CallsForLength(adds, order);
  }
}
