/** One collection cycle (internal/sources/cycle.go): the events of the authentication log come first in
    the batch, and the log position moves on only if all of them are safe. */
module Cycle {
  import opened Optional
  import opened AuthLog
  import opened Spool
  import opened Delivery
  import opened Sender

  /** The server has confirmed the event, or the spool holds it. */
  ghost predicate Safe(log: seq<Exchange>, d: Directory, event: string) {
    ConfirmedEvent(log, event) || SpooledEvent(d, event)
  }

  function Names(name: EventId -> string, ids: seq<EventId>): (r: seq<string>)
    ensures |r| == |ids| && forall i :: 0 <= i < |ids| ==> r[i] == name(ids[i])
  {
    if ids == [] then [] else Names(name, ids[..|ids| - 1]) + [name(ids[|ids| - 1])]
  }

  class Manager {
    const capturer: Capturer?
    const sender: Sender
    /** The textual form of event identities. */
    const name: EventId -> string

    ghost predicate Valid()
      reads this, capturer, sender, sender.spool
    {
      sender.Valid() && (capturer != null ==> capturer.Valid() && capturer.pending.None?)
    }

    constructor (c: Capturer?, s: Sender, n: EventId -> string)
      requires s.Valid() && (c != null ==> c.Valid() && c.pending.None?)
      ensures Valid() && capturer == c && sender == s && name == n
    {
      capturer, sender, name := c, s, n;
    }

    /** `RunOnce`. `others` are the events of the other collectors, in their order. The capture `auth` is
        committed, in memory and in the checkpoint file, only if each of its events is safe; otherwise
        the log position is where it was and the file is untouched. */
    method RunOnce(
      now: int, file: Option<LogFile>, others: seq<string>, scripts: nat -> (nat -> Round), broken: nat -> bool)
      returns (r: Outcome, ok: bool, ghost auth: seq<EventId>, ghost advanced: bool)
      requires Valid() && (capturer != null && file.Some? ==> capturer.Follows(file.value))
      modifies capturer, sender`log, sender.spool
      ensures Valid()
      // All events are handed over, the captured ones first; the durable ones are safe.
      ensures var events := Names(name, auth) + others;
              && r.attempted == |events| && r.delivered <= r.durable <= |events|
              && (forall i :: 0 <= i < r.durable ==> Safe(sender.log, sender.Directory(), events[i]))
              && (ok ==> r.delivered == |events|)
      ensures advanced ==> capturer != null && file.Some? && forall i :: 0 <= i < |auth| ==>
                Safe(sender.log, sender.Directory(), name(auth[i]))
      ensures advanced ==>
                && capturer.committed ==
                     (if Extends(old(capturer.known), file.value) then old(capturer.committed) else []) + auth
                && Extends(capturer.known, file.value)
      ensures capturer != null && !advanced ==>
                || capturer.loadErr || file.None? || (exists o :: 0 <= o <= |file.value.text| && broken(o))
                || r.durable < |auth|
      ensures capturer != null && !advanced ==>
                && capturer.known == old(capturer.known) && capturer.committed == old(capturer.committed)
                && capturer.Here() == old(capturer.Here())
                && capturer.checkpoint == old(capturer.checkpoint)
                && capturer.savedKnown == old(capturer.savedKnown)
                && capturer.savedCommitted == old(capturer.savedCommitted)
      // The checkpoint file moves only to the end of a capture whose events are all safe.
      ensures capturer != null && capturer.checkpoint != old(capturer.checkpoint) ==>
                && advanced && capturer.savedKnown == capturer.known && capturer.savedCommitted == capturer.committed
      ensures capturer != null && advanced && ok && capturer.persistent ==>
                && capturer.checkpoint.Some?
                && capturer.savedKnown == capturer.known && capturer.savedCommitted == capturer.committed
    {
      hide Settled, Covers, LineEnd, ConfirmedEvent, SpooledEvent, Counted, Reasoned;
      hide ReportsNews, Remembers, Post, Spoolable, Acknowledges, WithinLimits, WrittenFor, SilentNow;
      auth, advanced := [], false;
      var events, active, captured := [], false, 0;
      if capturer != null {
        var ids;
        active, ids := capturer.Capture(now, file, broken);
        if active {
          auth, captured := ids, |ids|;
          events := Names(name, ids);
        }
      }
      events := events + others;
      if |events| == 0 {
        r, ok := Outcome(0, 0, 0), true;
        if active {
          ok := capturer.Commit();
          advanced := true;
        }
        return;
      }
      assert captured == |auth| && forall i :: 0 <= i < |auth| ==> events[i] == name(auth[i]);
      hide Safe;
      r, ok, advanced := HandOver(now, events, active, captured, scripts);
    }

    /** The events are sent; then the pending capture is committed or taken back. */
    method HandOver(now: int, events: seq<string>, active: bool, captured: nat, scripts: nat -> (nat -> Round))
      returns (r: Outcome, ok: bool, ghost advanced: bool)
      requires sender.Valid() && (active ==> capturer != null && captured <= |events|)
      requires capturer != null ==> capturer.Valid() && (capturer.pending.Some? <==> active)
      modifies capturer, sender`log, sender.spool
      ensures Valid()
      ensures r.attempted == |events| && r.delivered <= r.durable <= |events| && (ok ==> r.delivered == |events|)
      ensures forall i :: 0 <= i < r.durable ==> Safe(sender.log, sender.Directory(), events[i])
      ensures advanced <==> active && r.durable >= captured
      ensures capturer != null ==> capturer.loadErr == old(capturer.loadErr)
      ensures advanced ==>
                && old(capturer.offset) <= |old(capturer.seen).text|
                && capturer.known == Prefix(old(capturer.seen), old(capturer.offset))
                && capturer.committed ==
                     (if Extends(old(capturer.known), old(capturer.seen)) then old(capturer.committed) else []) +
                     old(capturer.captured)
                && (ok && capturer.persistent ==>
                      && capturer.checkpoint.Some?
                      && capturer.savedKnown == capturer.known && capturer.savedCommitted == capturer.committed)
                && (capturer.checkpoint != old(capturer.checkpoint) ==>
                      capturer.savedKnown == capturer.known && capturer.savedCommitted == capturer.committed)
      ensures capturer != null && !advanced ==>
                && capturer.known == old(capturer.known) && capturer.committed == old(capturer.committed)
                && capturer.Here() == old(capturer.Here())
                && capturer.checkpoint == old(capturer.checkpoint)
                && capturer.savedKnown == old(capturer.savedKnown)
                && capturer.savedCommitted == old(capturer.savedCommitted)
    {
      hide Settled, Covers, LineEnd, ConfirmedEvent, SpooledEvent, Counted, Reasoned, PendingOk;
      hide Post, Spoolable, Acknowledges, WithinLimits, WrittenFor;
      advanced := false;
      ghost var last, f;
      r, ok, last, f := sender.SendEvents(events, scripts, now);
      if active {
        if r.durable >= captured {
          var saved := capturer.Commit();
          ok := ok && saved;
          advanced := true;
        } else {
          capturer.Rollback();
        }
      }
    }
  }
}
