/** The remotely managed configuration of internal/sources/runtime_config.go: it only ever moves forward,
    in memory, on disk and across restarts. */
module RuntimeConfig {
  import opened Optional

  /** The value of the `revision` field: absent, not a positive integer, or a number. */
  datatype Revision = Unrevisioned | Malformed | Numbered(n: int)

  /** A configuration document. `body` is everything but the revision; documents are compared by a hash
      of their encoding, which is taken to be injective. */
  datatype Document = Empty | Document(revision: Revision, body: string)

  datatype Decision = Accept | Unchanged | Stale | Conflict | Invalid

  function RevisionOf(d: Document): Revision {
    match d
    case Empty => Unrevisioned
    case Document(Numbered(n), _) => if n < 1 then Malformed else Numbered(n)
    case Document(r, _) => r
  }

  /** The checks of `Apply`, in order. */
  function Decide(current: Document, next: Document): Decision {
    var have, want := RevisionOf(current), RevisionOf(next);
    if have == Malformed || want == Malformed then Invalid
    else if next == current then Unchanged
    else if current != Empty && have == Unrevisioned && want == Unrevisioned then Stale
    else if have.Numbered? && (want == Unrevisioned || want.n < have.n) then Stale
    else if have.Numbered? && want.n == have.n then Conflict
    else Accept
  }

  /** Empty comes first, then documents without a revision, then revisions in order. */
  function Rank(d: Document): nat {
    match d
    case Empty => 0
    case Document(Numbered(n), _) => if n < 1 then 1 else n + 1
    case Document(_, _) => 1
  }

  predicate Proper(d: Document) {
    RevisionOf(d) != Malformed
  }

  /** A document is accepted exactly if it is proper and ranks above the current one. */
  lemma AcceptedIffNewer(current: Document, next: Document)
    requires Proper(current)
    ensures Decide(current, next) == Accept <==> Proper(next) && Rank(current) < Rank(next)
    ensures Decide(current, next) == Unchanged <==> next == current
    ensures Decide(current, next) == Conflict <==>
              next != current && Rank(current) == Rank(next) && RevisionOf(current).Numbered? && Proper(next)
  {
  }

  /** The same by the revisions of the two documents. */
  lemma AcceptedByRevision(current: Document, next: Document)
    requires current.Document? && current.revision.Numbered? ==> current.revision.n >= 1
    requires current.Document? ==> current.revision != Malformed
    ensures Decide(current, next) == Accept <==>
              && next.Document? && next.revision != Malformed
              && (next.revision.Numbered? ==> next.revision.n >= 1)
              && (current.Document? ==>
                    && next.revision.Numbered?
                    && (current.revision.Numbered? ==> next.revision.n > current.revision.n))
    ensures Proper(current)
  {
  }

  /** Along a chain of acceptances, whatever came earlier is refused ever after. */
  lemma {:induction false} AcceptancesNeverReturn(chain: seq<Document>, i: nat, j: nat)
    requires i < j < |chain| && Proper(chain[0])
    requires forall k :: 0 <= k < |chain| - 1 ==> Decide(chain[k], chain[k + 1]) == Accept
    ensures Proper(chain[i]) && Proper(chain[j]) && Rank(chain[i]) < Rank(chain[j])
    ensures chain[i] != chain[j] && Decide(chain[j], chain[i]) in {Stale, Conflict}
    decreases j
  {
    ChainIsProper(chain, j);
    ChainIsProper(chain, i);
    ChainIsProper(chain, j - 1);
    AcceptedIffNewer(chain[j - 1], chain[j]);
    if i < j - 1 {
      AcceptancesNeverReturn(chain, i, j - 1);
    }
    AcceptedIffNewer(chain[j], chain[i]);
  }

  lemma {:induction false} ChainIsProper(chain: seq<Document>, j: nat)
    requires j < |chain| && Proper(chain[0])
    requires forall k :: 0 <= k < |chain| - 1 ==> Decide(chain[k], chain[k + 1]) == Accept
    ensures Proper(chain[j])
  {
    if j > 0 {
      ChainIsProper(chain, j - 1);
    }
  }

  datatype Applied = Changed | Same | Refused(why: Decision) | WriteFailed

  /** Every published document ranks above all earlier ones. */
  ghost predicate Forward(history: seq<Document>) {
    && (forall i :: 0 <= i < |history| ==> Proper(history[i]))
    && forall i, j :: 0 <= i < j < |history| ==> Rank(history[i]) < Rank(history[j])
  }

  lemma ForwardStep(history: seq<Document>, d: Document)
    requires Forward(history) && |history| > 0 && Proper(d) && Rank(history[|history| - 1]) < Rank(d)
    ensures Forward(history + [d])
  {
  }

  /** `parseConfigRevision`: a revision is absent or a positive number. */
  method ParseRevision(d: Document) returns (revision: Option<int>, valid: bool)
    ensures valid <==> Proper(d)
    ensures valid ==> RevisionOf(d) == if revision.None? then Unrevisioned else Numbered(revision.value)
    ensures revision.Some? ==> d.Document? && d.revision == Numbered(revision.value) && revision.value >= 1
  {
    if d == Empty || d.revision == Unrevisioned {
      return None, true;
    }
    match d.revision
    case Numbered(n) =>
      if n < 1 {
        return None, false;
      }
      revision, valid := Some(n), true;
    case _ => revision, valid := None, false;
  }

  class Store {
    /** Whether a file path is configured. */
    const persistent: bool
    var raw: Document
    /** The persisted document; `None` while there is no file. */
    var file: Option<Document>
    /** All documents that were ever in force, in order, over all processes. */
    ghost var history: seq<Document>
    /** How many writes have failed. */
    ghost var faults: nat

    ghost predicate Valid()
      reads this
    {
      && |history| > 0 && history[|history| - 1] == raw && Forward(history)
      && (persistent ==>
            && (file.None? ==> raw == Empty)
            && (file.Some? ==> Proper(file.value) && (file.value == raw || Rank(raw) < Rank(file.value))))
    }

    constructor (durable: bool)
      ensures Valid() && raw == Empty && file.None? && persistent == durable && history == [Empty]
    {
      persistent := durable;
      raw, file, history, faults := Empty, None, [Empty], 0;
    }

    /** `Apply`. A document that is refused or cannot be written changes nothing that is in force; an
        accepted one is in force and on disk. */
    method Apply(next: Document) returns (r: Applied)
      requires Valid()
      modifies `raw, `file, `history, `faults
      ensures Valid() && faults == old(faults) + if r == WriteFailed then 1 else 0
      ensures r == WriteFailed ==> persistent && file in {old(file), Some(next)}
      ensures r == Changed ==>
                && Proper(next) && Rank(old(raw)) < Rank(next)
                && raw == next && history == old(history) + [next]
      ensures r == Changed && persistent ==> file == Some(raw)
      ensures r == Same || !persistent ==> file == old(file)
      ensures r != Changed ==> raw == old(raw) && history == old(history)
      ensures r == Same <==> next == old(raw)
      ensures r.Refused? ==> r.why == Decide(old(raw), next) && file == old(file)
      ensures r.Refused? <==> next != old(raw) && !(Proper(next) && Rank(old(raw)) < Rank(next))
    {
      AcceptedIffNewer(raw, next);
      var have, valid := ParseRevision(raw);
      if !valid {
        return Refused(Invalid);
      }
      var want;
      want, valid := ParseRevision(next);
      if !valid {
        return Refused(Invalid);
      }
      if next == raw {
        return Same;
      }
      if raw != Empty && have.None? && want.None? {
        return Refused(Stale);
      }
      if have.Some? && (want.None? || want.value < have.value) {
        return Refused(Stale);
      }
      if have.Some? && want == have {
        return Refused(Conflict);
      }
      if persistent {
        var written: bool := *;
        var landed: bool := *;
        if written || landed {
          file := Some(next);
        }
        if !written {
          faults := faults + 1;
          return WriteFailed;
        }
      }
      ForwardStep(history, next);
      raw, history := next, history + [next];
      r := Changed;
    }

    /** A new process. It does not start unless the file can be read; then what was in force, or
        something newer that had reached the disk, is in force again. Without a file it starts over. */
    method Restart(readable: bool) returns (ok: bool)
      requires Valid()
      modifies `raw, `history
      ensures Valid()
      ensures ok <==> !persistent || readable || file.None?
      ensures !ok ==> raw == old(raw) && history == old(history)
      ensures !persistent ==> raw == Empty && history == [Empty]
      ensures ok && persistent ==> raw == (if file.Some? then file.value else Empty)
      ensures ok && persistent ==>
                || (raw == old(raw) && history == old(history))
                || (Rank(old(raw)) < Rank(raw) && history == old(history) + [raw])
    {
      if !persistent {
        raw, history := Empty, [Empty];
        return true;
      }
      if file.None? {
        return true;
      }
      if !readable {
        return false;
      }
      ok := true;
      if file.value != raw {
        ForwardStep(history, file.value);
        raw, history := file.value, history + [file.value];
      }
    }
  }
}
