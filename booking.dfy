/**
 * Booking a chosen slot: the free/busy query is repeated for exactly that
 * half hour, an overlap sends the client back to choose again with nothing
 * written, and otherwise the calendar event is inserted (when the insert
 * goes through) and then one nine-cell row is appended to the ledger sheet.
 * An exception in the query, in reading its answer, in the overlap reply or
 * in the insert is only logged: the row is appended all the same. The ledger
 * append, the operator message and the confirmation are outside that `try`:
 * when one of them raises, the handler stops there and the conversation
 * keeps its state.
 */
module Booking {
  import opened Wrappers
  import opened Text
  import opened Slots
  import FreeSlots

  /** The answers gathered by the dialogue, as stored in `user_data`. */
  datatype Request = Request(auto: string, year: string, vin: string, telefon: string, opis: string)

  /** A calendar event: its title, its description and its half hour. */
  datatype Event = Event(summary: string, description: string, slot: Interval)

  /** One external write, in the order it happened. */
  datatype Write = InsertedEvent(event: Event) | AppendedRow(row: seq<string>)

  /**
   * How the selection handler ends: it returns SLOT_SELECT (choose again), it
   * returns END, or an exception leaves it and the state stays as it was.
   */
  datatype Verdict = ChooseAgain | Done | Raised

  /** How the negotiation ends: an overlap, or a booking with or without a calendar event. */
  datatype Negotiation = Conflict | Committed(eventWritten: bool)

  /**
   * Whether each remote call of the handler goes through: the calendar
   * insert, the overlap reply to the client, the ledger append (with the row
   * count it reads first), and the operator message with the confirmation.
   */
  datatype Calls = Calls(insertOk: bool, replyOk: bool, appendOk: bool, confirmOk: bool)

  /** The status written in the last cell of every new ledger row. */
  const NewStatus: string := "Nowe"

  /**
   * The event for a booking of the half hour from `slotStart`: the phone in
   * its title, the other four answers in its description.
   */
  function EventFor(req: Request, slotStart: int): (e: Event)
    ensures e.slot.start == slotStart && e.slot.end - e.slot.start == SlotMinutes
    ensures Occurs(req.telefon, e.summary)
    ensures Occurs(req.auto, e.description) && Occurs(req.year, e.description)
    ensures Occurs(req.vin, e.description) && Occurs(req.opis, e.description)
  {
    var title := "Заявка от ";
    var vinLabel := ", VIN: ";
    var issueLabel := "\nПроблема: ";
    var d := req.auto + " " + req.year + vinLabel + req.vin + issueLabel + req.opis;
    var p1 := req.auto + " ";
    var p2 := p1 + req.year + vinLabel;
    var p3 := p2 + req.vin + issueLabel;
    OccursSelf(req.telefon);
    OccursLeft(req.telefon, title, req.telefon);
    OccursSelf(req.auto);
    OccursRight(req.auto, req.auto, " ");
    OccursRight(req.auto, p1, req.year);
    OccursRight(req.auto, p1 + req.year, vinLabel);
    OccursRight(req.auto, p2, req.vin);
    OccursRight(req.auto, p2 + req.vin, issueLabel);
    OccursRight(req.auto, p3, req.opis);
    OccursSelf(req.year);
    OccursLeft(req.year, p1, req.year);
    OccursRight(req.year, p1 + req.year, vinLabel);
    OccursRight(req.year, p2, req.vin);
    OccursRight(req.year, p2 + req.vin, issueLabel);
    OccursRight(req.year, p3, req.opis);
    OccursSelf(req.vin);
    OccursLeft(req.vin, p2, req.vin);
    OccursRight(req.vin, p2 + req.vin, issueLabel);
    OccursRight(req.vin, p3, req.opis);
    OccursSelf(req.opis);
    OccursLeft(req.opis, p3, req.opis);
    Event(title + req.telefon, d, Interval(slotStart, slotStart + SlotMinutes))
  }

  /**
   * The ledger row: the number of rows already in the sheet, the creation
   * time, the five answers, the slot start as `YYYY-MM-DD HH:MM`, and "Nowe".
   */
  function LedgerRow(rowsBefore: nat, createdAt: string, req: Request, slotText: string): (r: seq<string>)
    ensures |r| == 9 && r[1] == createdAt && r[7] == slotText && r[8] == NewStatus
  {
    [NatToString(rowsBefore), createdAt, req.auto, req.year, req.vin, req.telefon, req.opis, slotText, NewStatus]
  }

  /**
   * The revalidation `any(start < slot_end and end > slot_start for b in busy)`,
   * read left to right: Some(answer), or None when a timestamp it has to read
   * does not parse (the exception that the handler only logs). An entry whose
   * start is not before the slot's end is passed over without reading its end,
   * and the first overlapping entry ends the scan.
   */
  function Revalidate(entries: seq<RawBusy>, slot: Interval): (r: Option<bool>)
    ensures AllParse(entries) ==> r.Some?
    decreases |entries|
  {
    if |entries| == 0 then Some(false)
    else
      var b := entries[0];
      if b.start.None? then None
      else if !(b.start.value < slot.end) then Revalidate(entries[1..], slot)
      else if b.end.None? then None
      else if b.end.value > slot.start then Some(true)
      else Revalidate(entries[1..], slot)
  }

  /**
   * How the `try` block of `slot_selected` ends for a query answer: an
   * overlap whose reply is sent returns SLOT_SELECT; every exception (the
   * query, reading its answer, the overlap reply, the insert) is logged and
   * the booking goes on without an event.
   */
  function Negotiate(recheck: FreeBusy, slot: Interval, calls: Calls): (n: Negotiation)
    ensures n == Conflict ==> recheck.Ok? && calls.replyOk
    ensures n == Committed(true) ==> recheck.Ok? && calls.insertOk
  {
    match recheck
    case Fail => Committed(false)
    case Ok(entries) =>
      match Revalidate(entries, slot)
      case None => Committed(false)
      case Some(overlap) =>
        if overlap then (if calls.replyOk then Conflict else Committed(false))
        else Committed(calls.insertOk)
  }

  /** What the handler returns after the negotiation has ended as `n`. */
  function VerdictOf(n: Negotiation, calls: Calls): (v: Verdict)
    ensures v == ChooseAgain <==> n == Conflict
    ensures v == Done ==> calls.appendOk && calls.confirmOk
  {
    if n == Conflict then ChooseAgain
    else if !calls.appendOk || !calls.confirmOk then Raised
    else Done
  }

  /** Every timestamp of the answer parses. */
  predicate AllParse(entries: seq<RawBusy>)
  {
    forall i :: 0 <= i < |entries| ==> entries[i].start.Some? && entries[i].end.Some?
  }

  /**
   * On an answer whose timestamps all parse, the revalidation reports an
   * overlap exactly when some busy interval crosses the slot.
   */
  lemma {:induction false} RevalidateParsed(entries: seq<RawBusy>, slot: Interval)
    requires AllParse(entries)
    ensures Revalidate(entries, slot) == Some(!IsFree(Crossing, FreeSlots.ParseBusy(entries), slot))
    decreases |entries|
  {
    if |entries| > 0 {
      var rest := entries[1..];
      RevalidateParsed(rest, slot);
      ParseBusyCons(entries[0], rest);
      var b := Interval(entries[0].start.value, entries[0].end.value);
      assert entries == [entries[0]] + rest;
      var p := FreeSlots.ParseBusy(rest);
      assert FreeSlots.ParseBusy(entries) == [b] + p;
      IsFreeCons(Crossing, b, p, slot);
    }
  }

  /** Parsing an answer one entry longer at the front. */
  lemma {:induction false} ParseBusyCons(b: RawBusy, rest: seq<RawBusy>)
    ensures FreeSlots.ParseBusy([b] + rest) == FreeSlots.ParseEntry(b) + FreeSlots.ParseBusy(rest)
    decreases |rest|
  {
    var s := [b] + rest;
    if |rest| > 0 {
      var front := rest[..|rest| - 1];
      assert s[..|s| - 1] == [b] + front;
      ParseBusyCons(b, front);
      assert s[|s| - 1] == rest[|rest| - 1];
    } else {
      assert s[..|s| - 1] == [];
    }
  }

  /**
   * An entry that starts at or after the slot's end is skipped without its end
   * being read: an unparsable end there raises nothing.
   */
  lemma SkipsLaterEntries(b: RawBusy, rest: seq<RawBusy>, slot: Interval)
    requires b.start.Some? && b.start.value >= slot.end
    ensures Revalidate([b] + rest, slot) == Revalidate(rest, slot)
  {
    assert ([b] + rest)[1..] == rest;
  }

  /**
   * The revalidation test, `b_start < slot_end and b_end > slot_start`, is the
   * crossing rule with its operands swapped; on non-empty intervals it is the
   * generator's `max < min` rule.
   */
  lemma RevalidationTestIsGeneratorTest(slot: Interval, b: Interval)
    requires slot.start < slot.end && b.start < b.end
    ensures (b.start < slot.end && b.end > slot.start) <==> Conflicts(MaxMin, slot, b)
  {
    RulesAgree(slot, b);
  }

  /**
   * A slot the generator found free passes revalidation: when every entry of
   * the new answer parses to a non-empty interval the generator already saw,
   * the booking is committed and the event is written iff the insert goes through.
   */
  lemma FreeAtGenerationIsCommitted(busy: seq<Interval>, entries: seq<RawBusy>, slot: Interval, calls: Calls)
    requires slot.start < slot.end
    requires IsFree(MaxMin, busy, slot)
    requires AllParse(entries)
    requires forall i :: 0 <= i < |entries| ==>
               entries[i].start.value < entries[i].end.value
               && Interval(entries[i].start.value, entries[i].end.value) in busy
    ensures Negotiate(Ok(entries), slot, calls) == Committed(calls.insertOk)
  {
    RevalidateParsed(entries, slot);
    var p := FreeSlots.ParseBusy(entries);
    forall j | 0 <= j < |p| ensures !Conflicts(Crossing, slot, p[j]) {
      FreeSlots.ParseBusyMembers(entries, p[j]);
      var i :| 0 <= i < |entries| && entries[i] == RawBusy(Some(p[j].start), Some(p[j].end));
      var k :| 0 <= k < |busy| && busy[k] == p[j];
      RulesAgree(slot, p[j]);
    }
  }

  /**
   * A busy interval that crosses the slot and is reached with every earlier
   * entry parsed sends the client back to choose again, unless the reply
   * that says so raises.
   */
  lemma {:induction false} OverlapIsConflict(entries: seq<RawBusy>, slot: Interval, i: nat, calls: Calls)
    requires i < |entries| && AllParse(entries[..i + 1])
    requires Conflicts(Crossing, slot, Interval(entries[i].start.value, entries[i].end.value))
    ensures Revalidate(entries, slot) == Some(true)
    ensures Negotiate(Ok(entries), slot, calls) == if calls.replyOk then Conflict else Committed(false)
    decreases i
  {
    assert entries[0] == entries[..i + 1][0];
    if i > 0 {
      var rest := entries[1..];
      assert rest[..i] == entries[..i + 1][1..];
      assert rest[i - 1] == entries[i];
      if !(entries[0].start.value < slot.end && entries[0].end.value > slot.start) {
        OverlapIsConflict(rest, slot, i - 1, calls);
      }
    }
  }

  /**
   * A failed query, an unreadable answer, or an overlap whose reply raises
   * still books: the booking goes on without an event.
   */
  lemma FailureStillBooks(entries: seq<RawBusy>, slot: Interval, calls: Calls)
    ensures Negotiate(Fail, slot, calls) == Committed(false)
    ensures Revalidate(entries, slot).None? ==> Negotiate(Ok(entries), slot, calls) == Committed(false)
    ensures Revalidate(entries, slot) == Some(true) && !calls.replyOk ==>
              Negotiate(Ok(entries), slot, calls) == Committed(false)
  {
  }

  /**
   * An event is written exactly when the answer reads as overlap-free and the
   * insert goes through; the client is sent back exactly when the answer
   * reads as an overlap and the reply is sent.
   */
  lemma EventWrittenIff(recheck: FreeBusy, slot: Interval, calls: Calls)
    ensures Negotiate(recheck, slot, calls) == Committed(true) <==>
              recheck.Ok? && Revalidate(recheck.entries, slot) == Some(false) && calls.insertOk
    ensures Negotiate(recheck, slot, calls) == Conflict <==>
              recheck.Ok? && Revalidate(recheck.entries, slot) == Some(true) && calls.replyOk
  {
  }

  /**
   * The row has nine cells ending in "Nowe", its first cell reads back as the
   * number of rows that were in the sheet, and it carries the five answers in order.
   */
  lemma LedgerRowShape(rowsBefore: nat, createdAt: string, req: Request, slotText: string)
    ensures |LedgerRow(rowsBefore, createdAt, req, slotText)| == 9
    ensures AllDigits(LedgerRow(rowsBefore, createdAt, req, slotText)[0])
    ensures DigitsValue(LedgerRow(rowsBefore, createdAt, req, slotText)[0]) == rowsBefore
    ensures LedgerRow(rowsBefore, createdAt, req, slotText)[1] == createdAt
    ensures LedgerRow(rowsBefore, createdAt, req, slotText)[2..7] == [req.auto, req.year, req.vin, req.telefon, req.opis]
    ensures LedgerRow(rowsBefore, createdAt, req, slotText)[7] == slotText
    ensures LedgerRow(rowsBefore, createdAt, req, slotText)[8] == NewStatus
  {
    NatToStringRoundTrip(rowsBefore);
  }

  /** What the calendar and the ledger sheet hold, and the writes made so far, in order. */
  datatype Snapshot = Snapshot(events: seq<Event>, rows: seq<seq<string>>, log: seq<Write>)

  /**
   * What `slot_selected` writes once the negotiation has ended as `n`: on a
   * conflict nothing; otherwise the event (when it was written) and then,
   * when the append goes through, one ledger row numbered by the rows
   * already in the sheet.
   */
  function Effect(s: Snapshot, n: Negotiation, calls: Calls, req: Request, slotStart: int,
                  createdAt: string, slotText: string): (t: Snapshot)
    ensures s.events <= t.events && s.rows <= t.rows && s.log <= t.log
    ensures |t.rows| <= |s.rows| + 1 && |t.events| <= |s.events| + 1
  {
    var e := EventFor(req, slotStart);
    var row := LedgerRow(|s.rows|, createdAt, req, slotText);
    match n
    case Conflict => s
    case Committed(written) =>
      var s1 := if written then Snapshot(s.events + [e], s.rows, s.log + [InsertedEvent(e)]) else s;
      if calls.appendOk then Snapshot(s1.events, s1.rows + [row], s1.log + [AppendedRow(row)]) else s1
  }

  /**
   * A conflict writes nothing. Otherwise the earlier rows and writes stay as
   * they were, the event (when there is one) is written first, and the row,
   * when the append goes through, is the one write after it; when the append
   * raises, the ledger is unchanged.
   */
  lemma EffectWrites(s: Snapshot, n: Negotiation, calls: Calls, req: Request, slotStart: int,
                     createdAt: string, slotText: string)
    ensures var t := Effect(s, n, calls, req, slotStart, createdAt, slotText);
            var row := LedgerRow(|s.rows|, createdAt, req, slotText);
            var e := EventFor(req, slotStart);
            && (n == Conflict ==> t == s)
            && (n != Conflict ==> t.rows[..|s.rows|] == s.rows && t.log[..|s.log|] == s.log)
            && (n != Conflict && calls.appendOk ==>
                  |t.rows| == |s.rows| + 1 && t.rows[|s.rows|] == row && t.log[|t.log| - 1] == AppendedRow(row))
            && (n != Conflict && !calls.appendOk ==> t.rows == s.rows)
            && (n == Committed(true) ==>
                  t.events == s.events + [e] && t.log[|s.log|] == InsertedEvent(e)
                  && |t.log| == |s.log| + (if calls.appendOk then 2 else 1))
            && (n == Committed(false) ==>
                  t.events == s.events && |t.log| == |s.log| + (if calls.appendOk then 1 else 0))
  {
    var t := Effect(s, n, calls, req, slotStart, createdAt, slotText);
    if n != Conflict {
      assert t.rows[..|s.rows|] == s.rows;
      assert t.log[..|s.log|] == s.log;
    }
  }

  /**
   * What the verdict tells about the writes: sent back to choose, nothing was
   * written; ended, exactly one row was appended; an exception left the
   * handler, and either no row was appended (the append raised, though an
   * event may be in the calendar) or the row was (the notification or the
   * confirmation raised).
   */
  lemma VerdictAndWrites(s: Snapshot, n: Negotiation, calls: Calls, req: Request, slotStart: int,
                         createdAt: string, slotText: string)
    ensures var t := Effect(s, n, calls, req, slotStart, createdAt, slotText);
            && (VerdictOf(n, calls) == ChooseAgain <==> n == Conflict)
            && (VerdictOf(n, calls) == ChooseAgain ==> t == s)
            && (VerdictOf(n, calls) == Done ==> |t.rows| == |s.rows| + 1)
            && (VerdictOf(n, calls) == Raised ==>
                  (|t.rows| == |s.rows| <==> !calls.appendOk) && |t.rows| <= |s.rows| + 1)
            && (VerdictOf(n, calls) == Raised && n == Committed(true) ==> |t.events| == |s.events| + 1)
  {
    EffectWrites(s, n, calls, req, slotStart, createdAt, slotText);
  }

  /** The calendar and the ledger sheet, with the order in which this model wrote to them. */
  class Backend {
    var events: seq<Event>
    var rows: seq<seq<string>>
    var log: seq<Write>

    function Snap(): Snapshot
      reads this
    {
      Snapshot(events, rows, log)
    }

    constructor (events0: seq<Event>, rows0: seq<seq<string>>)
      ensures Snap() == Snapshot(events0, rows0, [])
    {
      events := events0;
      rows := rows0;
      log := [];
    }

    /** `events().insert(...)` that goes through. */
    method InsertEvent(e: Event)
      modifies this
      ensures Snap() == Snapshot(old(events) + [e], old(rows), old(log) + [InsertedEvent(e)])
    {
      events := events + [e];
      log := log + [InsertedEvent(e)];
    }

    /** `sheet.append_row(row)`: one row after the existing ones. */
    method AppendRow(row: seq<string>)
      modifies this
      ensures Snap() == Snapshot(old(events), old(rows) + [row], old(log) + [AppendedRow(row)])
    {
      rows := rows + [row];
      log := log + [AppendedRow(row)];
    }
  }

  /**
   * `slot_selected` once the callback has been parsed to `slotStart`.
   * `recheck` is the answer to the repeated query, `calls` says which remote
   * calls go through, `createdAt` is the formatted current time and
   * `slotText` the slot start formatted as `YYYY-MM-DD HH:MM`.
   */
  method SelectSlot(b: Backend, req: Request, slotStart: int, recheck: FreeBusy, calls: Calls,
                    createdAt: string, slotText: string)
      returns (verdict: Verdict)
    modifies b
    ensures var n := Negotiate(recheck, Interval(slotStart, slotStart + SlotMinutes), calls);
            && verdict == VerdictOf(n, calls)
            && b.Snap() == Effect(old(b.Snap()), n, calls, req, slotStart, createdAt, slotText)
  {
    var slot := Interval(slotStart, slotStart + SlotMinutes);
    var event := EventFor(req, slotStart);
    if recheck.Ok? {
      var overlapping := Revalidate(recheck.entries, slot);
      if overlapping == Some(true) {
        if calls.replyOk {
          return ChooseAgain;
        }
      } else if overlapping == Some(false) && calls.insertOk {
        b.InsertEvent(event);
      }
    }
    if !calls.appendOk {
      return Raised;
    }
    var row := LedgerRow(|b.rows|, createdAt, req, slotText);
    b.AppendRow(row);
    if !calls.confirmOk {
      return Raised;
    }
    verdict := Done;
  }
}
