/** The durable record of a managed response action (internal/responseactions/journal.go): what a
    record may look like and how much room the journal keeps for it. */
module Journal {
  import opened Optional
  import opened ResponseAction
  import opened MapSum

  datatype Phase = Accepted | Executing | Terminal

  datatype ResultStatus = Success | Failed | Other

  datatype Payload = Payload(encodable: bool, size: nat)

  datatype Result = Result(id: int, agent: string, status: ResultStatus, payload: Option<Payload>, error: string)

  datatype Record = Record(action: Action, phase: Phase, result: Option<Result>, startedAt: int, updatedAt: int)

  type Entries = map<int, Record>

  const MAX_RECORD_SIZE: nat := 0x80_0000
  const MAX_PAYLOAD_SIZE: nat := 0x20_0000
  const TERMINAL_GROWTH_RESERVE: nat := 0x30_0000

  /** `size` is the length of a record's encoding; a file holds that and a newline. */
  datatype Limits = Limits(maxRecords: nat, maxBytes: nat, size: Record -> nat)

  /** `validateJournalRecord`. */
  predicate ValidRecord(r: Record) {
    && WellFormed(r.action)
    && (r.phase != Terminal ==> r.result.None?)
    && (r.phase == Terminal ==> r.result.Some? && r.result.value.id == r.action.id && r.result.value.status != Other)
  }

  function FileSize(l: Limits, r: Record): nat {
    l.size(r) + 1
  }

  /** `loadLocked` succeeds: every file is of admissible size and holds a valid record under its
      own name. */
  predicate Loadable(l: Limits, j: Entries) {
    forall id :: id in j ==> ValidRecord(j[id]) && j[id].action.id == id && FileSize(l, j[id]) <= MAX_RECORD_SIZE
  }

  /** `Normalize`. */
  method CheckAction(a: Action) returns (ok: bool)
    ensures ok <==> WellFormed(a)
    ensures ok <==> a.id > 0 && a.kind != "" && a.agent != "" && a.status in {Pending, Delivered} && a.requested
  {
    if a.id <= 0 || a.kind == "" || a.agent == "" {
      return false;
    }
    if a.status != Pending && a.status != Delivered {
      return false;
    }
    ok := a.requested;
  }

  /** `validateJournalRecord`. */
  method CheckRecord(r: Record) returns (ok: bool)
    ensures ok <==> ValidRecord(r)
    ensures ok ==> r.action.id > 0 && (r.phase == Terminal <==> r.result.Some?)
    ensures ok && r.phase == Terminal ==>
              r.result.value.id == r.action.id && r.result.value.status in {Success, Failed}
  {
    ok := CheckAction(r.action);
    if !ok {
      return;
    }
    match r.phase
    case Accepted | Executing => ok := r.result.None?;
    case Terminal =>
      if r.result.None? {
        return false;
      }
      var result := r.result.value;
      ok := result.id == r.action.id && (result.status == Success || result.status == Failed);
  }

  /** `loadLocked`: reads every file, and fails at the first that is too large or holds no valid record of
      its own action. */
  method Load(l: Limits, j: Entries) returns (ok: bool)
    ensures ok <==> Loadable(l, j)
    ensures ok ==> forall id :: id in j ==> j[id].action.id == id > 0 && l.size(j[id]) < MAX_RECORD_SIZE
  {
    var rest := j.Keys;
    while rest != {}
      invariant forall id :: id in rest ==> id in j
      invariant forall id :: id in j && id !in rest ==>
                  ValidRecord(j[id]) && j[id].action.id == id && FileSize(l, j[id]) <= MAX_RECORD_SIZE
      decreases |rest|
    {
      var id := Pick(rest);
      var size := l.size(j[id]) + 1;
      if size > MAX_RECORD_SIZE {
        return false;
      }
      var valid := CheckRecord(j[id]);
      if !valid || j[id].action.id != id {
        return false;
      }
      rest := rest - {id};
    }
    ok := true;
  }

  /** Bytes on disk. */
  ghost function TotalBytes(l: Limits, j: Entries): int {
    Total(j, r => FileSize(l, r))
  }

  function Reservation(l: Limits, r: Record): nat {
    FileSize(l, r) + if r.phase == Terminal then 0 else TERMINAL_GROWTH_RESERVE
  }

  ghost function Reserved(l: Limits, j: Entries): int {
    Total(j, r => Reservation(l, r))
  }

  /** `ensureCapacityLocked`, for a loadable journal. */
  ghost predicate HasCapacity(l: Limits, j: Entries, r: Record) {
    && |j| < l.maxRecords
    && l.size(r) <= MAX_RECORD_SIZE
    && Reserved(l, j) + l.size(r) + TERMINAL_GROWTH_RESERVE <= l.maxBytes
  }

  const OMITTED_TOO_LARGE := "result payload omitted because it exceeded the durable result limit"
  const OMITTED_UNENCODABLE := "result payload omitted because it could not be encoded"

  /** The payload can be kept: there is none, or it can be encoded within the limit. */
  predicate Keepable(payload: Option<Payload>) {
    payload.Some? ==> payload.value.encodable && payload.value.size <= MAX_PAYLOAD_SIZE
  }

  /** `r` says of the action what `outcome` says, under the action's own identity: the same status, and
      payload and error as they are, unless the payload cannot be kept, which the error then adds. */
  predicate Reports(a: Action, outcome: Result, r: Result) {
    && r.id == a.id && r.agent == a.agent && r.status == outcome.status
    && (Keepable(outcome.payload) ==> r.payload == outcome.payload && r.error == outcome.error)
    && (!Keepable(outcome.payload) ==>
          var why := if outcome.payload.value.encodable then OMITTED_TOO_LARGE else OMITTED_UNENCODABLE;
          && r.payload.None?
          && r.error == if outcome.error == "" then why else outcome.error + "; " + why)
  }

  /** `boundedResult`: a payload that is too large or cannot be encoded is dropped, and the error
      text says so. */
  function Bounded(r: Result): Result {
    if r.payload.None? || (r.payload.value.encodable && r.payload.value.size <= MAX_PAYLOAD_SIZE) then r
    else
      var message := if r.payload.value.encodable then OMITTED_TOO_LARGE else OMITTED_UNENCODABLE;
      r.(payload := None, error := if r.error == "" then message else r.error + "; " + message)
  }

  lemma BoundedIsDurable(r: Result)
    ensures var b := Bounded(r);
            && b.id == r.id && b.agent == r.agent && b.status == r.status
            && (b.payload.Some? ==> b.payload.value.encodable && b.payload.value.size <= MAX_PAYLOAD_SIZE && b == r)
            && (b.payload != r.payload ==> |b.error| > |r.error|)
            && Bounded(b) == b
  {
  }

  lemma BoundedReports(a: Action, outcome: Result)
    ensures Reports(a, outcome, Bounded(outcome.(id := a.id, agent := a.agent)))
  {
  }

  /** A record is written as soon as its encoding fits, but one of exactly the maximal size makes
      the whole journal unreadable: its newline takes the file over the limit. */
  lemma WrittenButUnloadable(l: Limits, j: Entries, r: Record)
    requires Loadable(l, j) && ValidRecord(r) && l.size(r) <= MAX_RECORD_SIZE
    ensures Loadable(l, j[r.action.id := r]) <==> l.size(r) < MAX_RECORD_SIZE
  {
    var j' := j[r.action.id := r];
    assert j'[r.action.id] == r;
    if l.size(r) < MAX_RECORD_SIZE {
      assert forall id :: id in j' ==> id == r.action.id || id in j;
    }
  }

  /** The most a record can still occupy if the encodings of all records of one action lie within
      the growth reserve above `floor`. */
  function Cap(l: Limits, floor: Action -> nat, r: Record): nat {
    if r.phase == Terminal then FileSize(l, r) else floor(r.action) + TERMINAL_GROWTH_RESERVE + 1
  }

  ghost function Claimed(l: Limits, floor: Action -> nat, j: Entries): int {
    Total(j, r => Cap(l, floor, r))
  }

  predicate InWindow(l: Limits, floor: Action -> nat, r: Record) {
    floor(r.action) <= l.size(r) <= floor(r.action) + TERMINAL_GROWTH_RESERVE
  }

  ghost predicate Windowed(l: Limits, floor: Action -> nat, j: Entries) {
    forall id :: id in j ==> InWindow(l, floor, j[id])
  }

  ghost predicate WithinBudget(l: Limits, floor: Action -> nat, j: Entries) {
    |j| <= l.maxRecords && Claimed(l, floor, j) <= l.maxBytes + 1
  }

  lemma BudgetBoundsDisk(l: Limits, floor: Action -> nat, j: Entries)
    requires WithinBudget(l, floor, j) && Windowed(l, floor, j)
    ensures |j| <= l.maxRecords && TotalBytes(l, j) <= l.maxBytes + 1
  {
    var size, cap := (r: Record) => FileSize(l, r), (r: Record) => Cap(l, floor, r);
    forall id | id in j ensures size(j[id]) <= cap(j[id]) {
      assert InWindow(l, floor, j[id]);
    }
    TotalMonotone(j, size, cap);
  }

  lemma ClaimedUpdate(l: Limits, floor: Action -> nat, j: Entries, id: int, r: Record)
    ensures Claimed(l, floor, j[id := r]) ==
            Claimed(l, floor, j) - (if id in j then Cap(l, floor, j[id]) else 0) + Cap(l, floor, r)
    ensures |j[id := r]| == |j| + if id in j then 0 else 1
  {
    TotalUpdate(j, r => Cap(l, floor, r), id, r);
    SizeOfUpdate(j, id, r);
  }

  lemma SizeOfUpdate(j: Entries, id: int, r: Record)
    ensures |j[id := r]| == |j| + if id in j then 0 else 1
  {
    SameMembers(j[id := r].Keys, j.Keys + {id});
    if id in j {
      SameMembers(j.Keys + {id}, j.Keys);
    }
  }

  lemma ClaimedAtMostReserved(l: Limits, floor: Action -> nat, j: Entries)
    requires Windowed(l, floor, j)
    ensures Claimed(l, floor, j) <= Reserved(l, j)
  {
    var cap, reservation := (r: Record) => Cap(l, floor, r), (r: Record) => Reservation(l, r);
    forall id | id in j ensures cap(j[id]) <= reservation(j[id]) {
      assert InWindow(l, floor, j[id]);
    }
    TotalMonotone(j, cap, reservation);
  }

  /** Admission control is what keeps the budget: it charges every unfinished action its reserve. */
  lemma AdmissionKeepsBudget(l: Limits, floor: Action -> nat, j: Entries, r: Record)
    requires Windowed(l, floor, j) && InWindow(l, floor, r) && r.action.id !in j && r.phase != Terminal
    requires HasCapacity(l, j, r)
    ensures WithinBudget(l, floor, j[r.action.id := r])
  {
    ClaimedAtMostReserved(l, floor, j);
    ClaimedUpdate(l, floor, j, r.action.id, r);
  }

  lemma RewriteKeepsBudget(l: Limits, floor: Action -> nat, j: Entries, id: int, r: Record)
    requires WithinBudget(l, floor, j) && InWindow(l, floor, r)
    requires id in j && j[id].phase != Terminal && r.action == j[id].action
    ensures WithinBudget(l, floor, j[id := r])
  {
    ClaimedUpdate(l, floor, j, id, r);
  }

  lemma DeleteKeepsBudget(l: Limits, floor: Action -> nat, j: Entries, id: int)
    requires WithinBudget(l, floor, j) && id in j
    ensures WithinBudget(l, floor, j - {id})
  {
    TotalRemove(j, r => Cap(l, floor, r), id);
    Shrinks(j, id);
  }
}
