/**
 * The recipient directory that the export's per-record callback builds:
 * the flat list of handles, handle -> recipient ids, recipient id -> email.
 */
module Directory {
  import opened Types

  /** One row of the export: columns Email, RECIPIENT_ID and TwitterHandle. */
  datatype ExportRecord = ExportRecord(email: Email, recipientId: RecipientId, twitterHandle: Option<string>)

  /** `if (rec.TwitterHandle)`: a missing column and the empty string are both falsy. */
  predicate HasHandle(rec: ExportRecord)
  {
    rec.twitterHandle.Some? && rec.twitterHandle.value != ""
  }

  datatype Directory = Directory(
    twitterHandles: seq<Handle>,
    recipientIdsByHandle: map<Handle, seq<RecipientId>>,
    emailByRecipientId: map<RecipientId, Email>)

  const Empty := Directory([], map[], map[])

  /** The ids recorded for a handle so far; an absent key reads as no ids. */
  function IdsOf(ids: map<Handle, seq<RecipientId>>, h: Handle): seq<RecipientId>
  {
    if h in ids then ids[h] else []
  }

  /** The effect of `forEachCallback` on one record. */
  function AddRecord(d: Directory, rec: ExportRecord): Directory
  {
    if HasHandle(rec) then
      var h := rec.twitterHandle.value;
      Directory(
        d.twitterHandles + [h],
        d.recipientIdsByHandle[h := IdsOf(d.recipientIdsByHandle, h) + [rec.recipientId]],
        d.emailByRecipientId[rec.recipientId := rec.email])
    else d
  }

  /** The directory after the callback has run on every record, in export order. */
  function Build(d: Directory, records: seq<ExportRecord>): Directory
    decreases |records|
  {
    if records == [] then d else Build(AddRecord(d, records[0]), records[1..])
  }

  // ------------------------------------------------------- reference views

  /** The handles of the handle-bearing records, in export order. */
  function HandlesOf(records: seq<ExportRecord>): seq<Handle>
  {
    if records == [] then []
    else (if HasHandle(records[0]) then [records[0].twitterHandle.value] else []) + HandlesOf(records[1..])
  }

  /** The recipient ids of the records carrying handle `h`, in export order, repeats kept. */
  function RecipientsOf(records: seq<ExportRecord>, h: Handle): seq<RecipientId>
  {
    if records == [] then []
    else
      (if HasHandle(records[0]) && records[0].twitterHandle.value == h then [records[0].recipientId] else [])
      + RecipientsOf(records[1..], h)
  }

  /** The email of the last handle-bearing record with id `r`, if any. */
  function LastEmail(records: seq<ExportRecord>, r: RecipientId): Option<Email>
  {
    if records == [] then None
    else match LastEmail(records[1..], r)
      case Some(e) => Some(e)
      case None =>
        if HasHandle(records[0]) && records[0].recipientId == r then Some(records[0].email) else None
  }

  /**
   * The invariant the directory keeps: each handle occurs in the flat list as
   * often as it has recipient ids, every listed handle has an entry, and every
   * recipient id of an entry has an email.
   */
  ghost predicate Valid(d: Directory)
  {
    && (forall h :: h in d.recipientIdsByHandle ==>
          |d.recipientIdsByHandle[h]| == multiset(d.twitterHandles)[h] > 0)
    && (forall h :: h in d.twitterHandles ==> h in d.recipientIdsByHandle)
    && (forall h, r :: h in d.recipientIdsByHandle && r in d.recipientIdsByHandle[h] ==>
          r in d.emailByRecipientId)
  }

  // ---------------------------------------------------------------- lemmas

  /**
   * A handle-bearing record appends one copy of its handle to the flat list,
   * creates the handle's id list when absent and appends its id to it, and
   * records its email (the last write wins); other handles and ids keep their
   * entries. Without a handle nothing changes.
   */
  lemma AddRecordEffect(d: Directory, rec: ExportRecord)
    ensures !HasHandle(rec) ==> AddRecord(d, rec) == d
    ensures HasHandle(rec) ==>
      var h, d' := rec.twitterHandle.value, AddRecord(d, rec);
      && d'.twitterHandles == d.twitterHandles + [h]
      && d'.recipientIdsByHandle.Keys == d.recipientIdsByHandle.Keys + {h}
      && d'.recipientIdsByHandle[h] == IdsOf(d.recipientIdsByHandle, h) + [rec.recipientId]
      && (forall g :: g in d.recipientIdsByHandle && g != h ==>
            d'.recipientIdsByHandle[g] == d.recipientIdsByHandle[g])
      && d'.emailByRecipientId.Keys == d.emailByRecipientId.Keys + {rec.recipientId}
      && d'.emailByRecipientId[rec.recipientId] == rec.email
      && (forall r :: r in d.emailByRecipientId && r != rec.recipientId ==>
            d'.emailByRecipientId[r] == d.emailByRecipientId[r])
  {
  }

  /** A record without a handle changes nothing. */
  lemma NoHandleNoChange(d: Directory, rec: ExportRecord)
    requires rec.twitterHandle == None || rec.twitterHandle == Some("")
    ensures AddRecord(d, rec) == d
  {
  }

  lemma ValidEmpty()
    ensures Valid(Empty)
  {
  }

  /** The callback keeps the directory invariant. */
  lemma AddRecordValid(d: Directory, rec: ExportRecord)
    requires Valid(d)
    ensures Valid(AddRecord(d, rec))
  {
    if HasHandle(rec) {
      var h := rec.twitterHandle.value;
      var d' := AddRecord(d, rec);
      assert multiset(d'.twitterHandles) == multiset(d.twitterHandles) + multiset{h};
      if h !in d.recipientIdsByHandle {
        assert h !in d.twitterHandles;
      }
    }
  }

  /** The export keeps the directory invariant. */
  lemma {:induction false} BuildValid(d: Directory, records: seq<ExportRecord>)
    requires Valid(d)
    ensures Valid(Build(d, records))
    decreases |records|
  {
    if records != [] {
      AddRecordValid(d, records[0]);
      BuildValid(AddRecord(d, records[0]), records[1..]);
    }
  }

  /** The flat list is the old list followed by one copy of each record's handle, duplicates kept. */
  lemma {:induction false} BuildHandles(d: Directory, records: seq<ExportRecord>)
    ensures Build(d, records).twitterHandles == d.twitterHandles + HandlesOf(records)
    decreases |records|
  {
    if records != [] {
      BuildHandles(AddRecord(d, records[0]), records[1..]);
    }
  }

  /** A handle's ids are its old ids followed by the ids of its records, in order and not deduplicated. */
  lemma {:induction false} BuildRecipients(d: Directory, records: seq<ExportRecord>, h: Handle)
    ensures IdsOf(Build(d, records).recipientIdsByHandle, h) ==
            IdsOf(d.recipientIdsByHandle, h) + RecipientsOf(records, h)
    ensures h in Build(d, records).recipientIdsByHandle <==>
            h in d.recipientIdsByHandle || RecipientsOf(records, h) != []
    decreases |records|
  {
    if records != [] {
      var d1 := AddRecord(d, records[0]);
      var own := if HasHandle(records[0]) && records[0].twitterHandle.value == h then [records[0].recipientId] else [];
      assert Build(d, records) == Build(d1, records[1..]);
      AddRecordIds(d, records[0], h);
      BuildRecipients(d1, records[1..], h);
      assert RecipientsOf(records, h) == own + RecipientsOf(records[1..], h);
      var before, later := IdsOf(d.recipientIdsByHandle, h), RecipientsOf(records[1..], h);
      assert before + own + later == before + (own + later);
    }
  }

  /** One record's contribution to the ids of handle `h`. */
  lemma AddRecordIds(d: Directory, rec: ExportRecord, h: Handle)
    ensures IdsOf(AddRecord(d, rec).recipientIdsByHandle, h) ==
            IdsOf(d.recipientIdsByHandle, h) + (if HasHandle(rec) && rec.twitterHandle.value == h then [rec.recipientId] else [])
    ensures h in AddRecord(d, rec).recipientIdsByHandle <==>
            h in d.recipientIdsByHandle || (HasHandle(rec) && rec.twitterHandle.value == h)
  {
  }

  /** Emails: the last handle-bearing record with an id wins; without one the old entry stays. */
  lemma {:induction false} BuildEmails(d: Directory, records: seq<ExportRecord>, r: RecipientId)
    ensures LastEmail(records, r).Some? ==>
      r in Build(d, records).emailByRecipientId &&
      Build(d, records).emailByRecipientId[r] == LastEmail(records, r).value
    ensures LastEmail(records, r).None? ==>
      (r in Build(d, records).emailByRecipientId <==> r in d.emailByRecipientId) &&
      (r in d.emailByRecipientId ==> Build(d, records).emailByRecipientId[r] == d.emailByRecipientId[r])
    decreases |records|
  {
    if records != [] {
      BuildEmails(AddRecord(d, records[0]), records[1..], r);
    }
  }

  /** An export with no handle-bearing record leaves the flat list empty, and conversely. */
  lemma NoHandlesIffNoHandleRecords(records: seq<ExportRecord>)
    ensures |Build(Empty, records).twitterHandles| == 0 <==>
            forall i :: 0 <= i < |records| ==> !HasHandle(records[i])
  {
    BuildHandles(Empty, records);
    HandlesOfEmpty(records);
  }

  lemma {:induction false} HandlesOfEmpty(records: seq<ExportRecord>)
    ensures HandlesOf(records) == [] <==> forall i :: 0 <= i < |records| ==> !HasHandle(records[i])
  {
    if records != [] {
      HandlesOfEmpty(records[1..]);
      if HandlesOf(records) == [] {
        forall i | 0 <= i < |records| ensures !HasHandle(records[i]) {
          if i > 0 { assert records[i] == records[1..][i - 1]; }
        }
      }
    }
  }
}
