/**
 The in-memory message store (`EmailServer` in server/email.go): an ordered
 sequence of captured emails plus the counter that numbers them. The store's
 read/write lock only makes each operation atomic, so every operation is a
 pure function from the old store to the new one.
 */
module MailStore {
  import opened Decimal

  /** A clock reading; 0 stands for Go's zero `time.Time`. */
  type Time = nat

  /** A captured email (`Email`). An empty `id` means "not yet numbered". */
  datatype Email = Email(
    id: string,
    sender: string,
    recipients: seq<string>,
    subject: string,
    body: string,
    html: bool,
    timestamp: Time)

  /** The zero `Email{}` that a failed lookup returns. */
  const NoEmail := Email("", "", [], "", "", false, 0)

  datatype Store = Store(emails: seq<Email>, counter: nat)

  /** `NewEmailServer`: no emails, and numbering starts at 1. */
  function NewStore(): (s: Store)
    ensures s.emails == [] && s.counter == 1
  {
    Store([], 1)
  }

  /**
   The email as `AddEmail` stores it: numbered with the counter when it has
   no id, stamped with `now` when it has no time.
   */
  function Stamped(s: Store, e: Email, now: Time): Email {
    e.(id := if e.id == "" then FormatId(s.counter) else e.id,
       timestamp := if e.timestamp == 0 then now else e.timestamp)
  }

  /**
   `AddEmail`: numbers an email that has no id with the current counter
   (then advances the counter), stamps an unset timestamp with `now`, and
   appends the result.
   */
  function Add(s: Store, e: Email, now: Time): (s': Store)
    ensures |s'.emails| == |s.emails| + 1
    ensures s'.emails[..|s.emails|] == s.emails
    ensures e.id == "" ==> s'.emails[|s.emails|].id == FormatId(s.counter) && s'.counter == s.counter + 1
    ensures e.id != "" ==> s'.emails[|s.emails|].id == e.id && s'.counter == s.counter
    ensures s'.emails[|s.emails|].timestamp == if e.timestamp == 0 then now else e.timestamp
    ensures s'.emails[|s.emails|].(id := e.id, timestamp := e.timestamp) == e
  {
    Store(s.emails + [Stamped(s, e, now)], if e.id == "" then s.counter + 1 else s.counter)
  }

  /** `GetEmails`: a copy of the stored emails, in insertion order. */
  function List(s: Store): seq<Email> {
    s.emails
  }

  /** `ClearEmails`: drops every email; the counter is left alone. */
  function Clear(s: Store): (s': Store)
    ensures s'.emails == [] && s'.counter == s.counter
  {
    s.(emails := [])
  }

  /**
   Listing shows the stored emails in insertion order: an add shows up at
   the end behind everything listed before, and after a clear only what
   was added since is listed.
   */
  lemma ListAfterAddAndClear(s: Store, e: Email, now: Time)
    ensures List(Add(s, e, now)) == List(s) + [Stamped(s, e, now)]
    ensures List(Clear(s)) == []
    ensures List(Add(Clear(s), e, now)) == [Stamped(s, e, now)]
  {
  }

  /** `k` is the first position in `emails` whose id is `id`. */
  predicate FirstWithId(emails: seq<Email>, id: string, k: int) {
    0 <= k < |emails| && emails[k].id == id && forall j :: 0 <= j < k ==> emails[j].id != id
  }

  /** `GetEmailByID`: a linear scan returning the first match, or the zero email. */
  method GetEmailById(s: Store, id: string) returns (e: Email, found: bool)
    ensures found ==> exists k :: FirstWithId(s.emails, id, k) && e == s.emails[k]
    ensures !found ==> e == NoEmail && forall k :: 0 <= k < |s.emails| ==> s.emails[k].id != id
  {
    var i := 0;
    while i < |s.emails|
      invariant 0 <= i <= |s.emails|
      invariant forall k :: 0 <= k < i ==> s.emails[k].id != id
    {
      if s.emails[i].id == id {
        assert FirstWithId(s.emails, id, i);
        return s.emails[i], true;
      }
      i := i + 1;
    }
    return NoEmail, false;
  }

  /**
   Every stored id was handed out by the counter: it is a decimal rendering
   of a number below the counter, and ids increase along the sequence.
   */
  ghost predicate WellNumbered(s: Store) {
    && (forall i :: 0 <= i < |s.emails| ==> IsDecimal(s.emails[i].id) && Value(s.emails[i].id) < s.counter)
    && (forall i, j :: 0 <= i < j < |s.emails| ==> Value(s.emails[i].id) < Value(s.emails[j].id))
  }

  ghost predicate IdsUnique(s: Store) {
    forall i, j :: 0 <= i < j < |s.emails| ==> s.emails[i].id != s.emails[j].id
  }

  lemma NewStoreWellNumbered()
    ensures WellNumbered(NewStore()) && IdsUnique(NewStore())
  {
  }

  /** Adding an email without an id keeps the numbering, and the new id exceeds every earlier one. */
  lemma AddKeepsWellNumbered(s: Store, e: Email, now: Time)
    requires WellNumbered(s)
    requires e.id == ""
    ensures WellNumbered(Add(s, e, now))
    ensures forall i :: 0 <= i < |s.emails| ==> Value(s.emails[i].id) < Value(Add(s, e, now).emails[|s.emails|].id)
  {
    ValueOfFormatId(s.counter);
  }

  lemma ClearKeepsWellNumbered(s: Store)
    requires WellNumbered(s)
    ensures WellNumbered(Clear(s))
  {
  }

  /** In a well-numbered store no two emails share an id. */
  lemma WellNumberedIdsUnique(s: Store)
    requires WellNumbered(s)
    ensures IdsUnique(s)
  {
    forall i, j | 0 <= i < j < |s.emails|
      ensures s.emails[i].id != s.emails[j].id
    {
      assert Value(s.emails[i].id) < Value(s.emails[j].id);
    }
  }

  /** In a well-numbered store, looking up a freshly assigned id finds the email just added. */
  lemma LookupFindsNewEmail(s: Store, e: Email, now: Time)
    requires WellNumbered(s)
    requires e.id == ""
    ensures FirstWithId(Add(s, e, now).emails, FormatId(s.counter), |s.emails|)
  {
    ValueOfFormatId(s.counter);
  }

  /** Both are decimal ids and the first denotes the smaller number. */
  predicate NumericallyBelow(a: string, b: string) {
    IsDecimal(a) && IsDecimal(b) && Value(a) < Value(b)
  }

  /** One store operation, as the query API and the session handlers issue them. */
  datatype Op = Insert(candidate: Email, now: Time) | Wipe

  function Apply(s: Store, op: Op): Store {
    match op
    case Insert(e, now) => Add(s, e, now)
    case Wipe => Clear(s)
  }

  function Replay(s: Store, ops: seq<Op>): Store
    decreases |ops|
  {
    if ops == [] then s else Replay(Apply(s, ops[0]), ops[1..])
  }

  /** An insert that leaves the numbering to the store. */
  predicate IsAutoInsert(op: Op) {
    op.Insert? && op.candidate.id == ""
  }

  /** The ids the store numbered itself while running `ops`, in order. */
  function Issued(s: Store, ops: seq<Op>): seq<string>
    decreases |ops|
  {
    if ops == [] then []
    else
      var autoId := if IsAutoInsert(ops[0]) then [FormatId(s.counter)] else [];
      autoId + Issued(Apply(s, ops[0]), ops[1..])
  }

  /**
   Auto-assigned ids strictly increase by numeric value over any sequence of
   adds and clears, so they never repeat: all lie between the starting and
   the final counter.
   */
  lemma {:induction false} IssuedIdsIncrease(s: Store, ops: seq<Op>)
    decreases |ops|
    ensures s.counter <= Replay(s, ops).counter
    ensures forall k :: 0 <= k < |Issued(s, ops)| ==>
      IsDecimal(Issued(s, ops)[k]) && s.counter <= Value(Issued(s, ops)[k]) < Replay(s, ops).counter
    ensures forall i, j :: 0 <= i < j < |Issued(s, ops)| ==> NumericallyBelow(Issued(s, ops)[i], Issued(s, ops)[j])
  {
    if ops != [] {
      var next := Apply(s, ops[0]);
      IssuedIdsIncrease(next, ops[1..]);
      ValueOfFormatId(s.counter);
      var autoId := if IsAutoInsert(ops[0]) then [FormatId(s.counter)] else [];
      assert Issued(s, ops) == autoId + Issued(next, ops[1..]);
      assert s.counter <= next.counter;
      assert autoId != [] ==> next.counter == s.counter + 1;
    }
  }

  /** Auto-assigned ids never repeat, whatever adds and clears come in between. */
  lemma AutoIdsNeverRepeat(s: Store, ops: seq<Op>)
    ensures forall i, j :: 0 <= i < j < |Issued(s, ops)| ==> Issued(s, ops)[i] != Issued(s, ops)[j]
  {
    IssuedIdsIncrease(s, ops);
  }

  /** Ids issued after a clear are numerically above every id issued before it. */
  lemma ClearNeverReusesIds(s: Store, before: seq<Op>, after: seq<Op>)
    ensures var mid := Clear(Replay(s, before));
      forall x, y :: x in Issued(s, before) && y in Issued(mid, after) ==>
        NumericallyBelow(x, y)
  {
    var mid := Clear(Replay(s, before));
    IssuedIdsIncrease(s, before);
    IssuedIdsIncrease(mid, after);
  }
}
