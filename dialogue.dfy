/**
 * The booking conversation: the states of `conv_handler`, which handler an
 * update reaches in each state, what every handler stores in `user_data` and
 * which state it returns, and a session object that runs one update at a
 * time against the calendar and the ledger sheet.
 */
module Dialogue {
  import opened Wrappers
  import opened Text
  import opened Slots
  import FreeSlots
  import Booking
  import opened Validators

  /**
   * The conversation states. `Idle` is outside the conversation: before the
   * first "zapis" press and after `ConversationHandler.END`.
   */
  datatype State = Idle | Auto | Year | Vin | Telefon | Opis | SlotSelect

  /**
   * An update: a text message, or a button press with its callback data and
   * the text of the message that carries the button.
   */
  datatype Input = Message(text: string) | Press(data: string, messageText: string)

  /** The handler `conv_handler` hands an update to, if any. */
  datatype Handler =
    | NoHandler
    | ZapisHandler
    | AutoHandler
    | YearHandler
    | VinHandler
    | TelefonHandler
    | OpisHandler
    | SlotHandler

  /** `filters.COMMAND`: a message that starts with a slash. */
  predicate IsCommand(text: string)
  {
    |text| > 0 && text[0] == '/'
  }

  /** `^zapis$` under `re.match`: "zapis", or "zapis" and a final line break (where `$` also matches). */
  predicate IsZapis(data: string)
  {
    data == "zapis" || data == "zapis\n"
  }

  /** `^\d{4}-\d{2}-\d{2}T` under `re.match`: a date `YYYY-MM-DD` and a `T`, then anything. */
  predicate SlotPattern(data: string)
  {
    && |data| >= 11
    && IsDigit(data[0]) && IsDigit(data[1]) && IsDigit(data[2]) && IsDigit(data[3])
    && data[4] == '-' && IsDigit(data[5]) && IsDigit(data[6])
    && data[7] == '-' && IsDigit(data[8]) && IsDigit(data[9])
    && data[10] == 'T'
  }

  /**
   * `conv_handler`: the entry point takes a "zapis" press outside the
   * conversation; in the five text states a message that is not a command goes
   * to that state's handler; in the selection state a press whose data starts
   * like an ISO date goes to the booking handler. Everything else, `/start`
   * included (its fallback returns nothing, so the state stays), changes no state.
   */
  function Route(st: State, input: Input): (h: Handler)
    ensures h == ZapisHandler <==> st == Idle && input.Press? && IsZapis(input.data)
    ensures h == SlotHandler <==> st == SlotSelect && input.Press? && SlotPattern(input.data)
    ensures h in {AutoHandler, YearHandler, VinHandler, TelefonHandler, OpisHandler} ==>
              input.Message? && !IsCommand(input.text)
    ensures h == OpisHandler <==> st == Opis && input.Message? && !IsCommand(input.text)
  {
    match input
    case Message(text) =>
      if IsCommand(text) then NoHandler
      else (match st
            case Auto => AutoHandler
            case Year => YearHandler
            case Vin => VinHandler
            case Telefon => TelefonHandler
            case Opis => OpisHandler
            case _ => NoHandler)
    case Press(data, _) =>
      if st == Idle && IsZapis(data) then ZapisHandler
      else if st == SlotSelect && SlotPattern(data) then SlotHandler
      else NoHandler
  }

  /**
   * The keys of `user_data` the booking dialogue writes: "auto", "year",
   * "vin", "telefon" and "opis".
   */
  datatype Field = AutoKey | YearKey | VinKey | TelefonKey | OpisKey

  /** The conversation state and the answers in `user_data`. */
  datatype Conf = Conf(state: State, answers: map<Field, string>)

  /** The answers a state needs are stored: those of every earlier question. */
  predicate HasRequired(st: State, ans: map<Field, string>)
  {
    match st
    case Idle => true
    case Auto => true
    case Year => AutoKey in ans
    case Vin => AutoKey in ans && YearKey in ans
    case Telefon => AutoKey in ans && YearKey in ans && VinKey in ans
    case Opis => AutoKey in ans && YearKey in ans && VinKey in ans && TelefonKey in ans
    case SlotSelect => AutoKey in ans && YearKey in ans && VinKey in ans && TelefonKey in ans && OpisKey in ans
  }

  /** A stored vehicle: an accepted "make model" that reads back as itself. */
  predicate ValidAuto(s: string)
  {
    CheckVehicle(s).Vehicle? && StoredVehicle(CheckVehicle(s)) == s
  }

  /** The check a stored answer has passed; the problem description is stored as it came. */
  predicate FieldValid(f: Field, v: string)
  {
    match f
    case AutoKey => ValidAuto(v)
    case YearKey => ValidYear(v)
    case VinKey => ValidVin(v)
    case TelefonKey => ValidPhone(v)
    case OpisKey => true
  }

  /** Every answer that is stored passed its check. */
  predicate AnswersValid(ans: map<Field, string>)
  {
    forall f {:trigger FieldValid(f, ans[f])} :: f in ans ==> FieldValid(f, ans[f])
  }

  /** What the dialogue keeps: the answers the state needs are there, and they are valid. */
  predicate Invariant(c: Conf)
  {
    HasRequired(c.state, c.answers) && AnswersValid(c.answers)
  }

  /** `get_auto`: store "make model" and ask for the year, or ask again. */
  function OnAuto(c: Conf, text: string): (r: Conf)
    ensures r == Conf(Auto, c.answers) || (r.state == Year && AutoKey in r.answers)
    ensures forall f :: f in c.answers && f != AutoKey ==> f in r.answers && r.answers[f] == c.answers[f]
  {
    var v := CheckVehicle(text);
    if v.Vehicle? then Conf(Year, c.answers[AutoKey := StoredVehicle(v)]) else Conf(Auto, c.answers)
  }

  /** `get_year`: store the stripped year and ask for the VIN, or ask again. */
  function OnYear(c: Conf, text: string): (r: Conf)
    ensures r == Conf(Year, c.answers) || (r.state == Vin && YearKey in r.answers)
    ensures forall f :: f in c.answers && f != YearKey ==> f in r.answers && r.answers[f] == c.answers[f]
  {
    match CheckYear(text)
    case Some(y) => Conf(Vin, c.answers[YearKey := y])
    case None => Conf(Year, c.answers)
  }

  /** `get_vin`: store the upper-case VIN and ask for the phone, or ask again. */
  function OnVin(c: Conf, text: string): (r: Conf)
    ensures r == Conf(Vin, c.answers) || (r.state == Telefon && VinKey in r.answers)
    ensures forall f :: f in c.answers && f != VinKey ==> f in r.answers && r.answers[f] == c.answers[f]
  {
    match CheckVin(text)
    case Some(v) => Conf(Telefon, c.answers[VinKey := v])
    case None => Conf(Vin, c.answers)
  }

  /** `get_telefon`: store the stripped number and ask for the problem, or ask again. */
  function OnTelefon(c: Conf, text: string): (r: Conf)
    ensures r == Conf(Telefon, c.answers) || (r.state == Opis && TelefonKey in r.answers)
    ensures forall f :: f in c.answers && f != TelefonKey ==> f in r.answers && r.answers[f] == c.answers[f]
  {
    match CheckPhone(text)
    case Some(p) => Conf(Opis, c.answers[TelefonKey := p])
    case None => Conf(Telefon, c.answers)
  }

  /** The slots `get_free_slots` returns for a query answer on day `today`. */
  function Offered(query: FreeBusy, today: int): (r: seq<Interval>)
    ensures |r| <= FreeSlots.MaxSlots
  {
    if query.Fail? then []
    else Take(FreeDays(MaxMin, FreeSlots.ParseBusy(query.entries), today + 1, today + 1 + FreeSlots.DaysAhead),
              FreeSlots.MaxSlots)
  }

  /** `get_opis`: store the message as it came, then end when nothing is free or offer the slots. */
  function OnOpis(c: Conf, text: string, slots: seq<Interval>): (r: Conf)
    ensures (r.state == SlotSelect) == (|slots| > 0) && (r.state == Idle) == (|slots| == 0)
    ensures OpisKey in r.answers && r.answers[OpisKey] == text
    ensures forall f :: f in c.answers && f != OpisKey ==> f in r.answers && r.answers[f] == c.answers[f]
  {
    var ans := c.answers[OpisKey := text];
    if |slots| == 0 then Conf(Idle, ans) else Conf(SlotSelect, ans)
  }

  /** The request `slot_selected` books, from the stored answers. */
  function RequestOf(ans: map<Field, string>): Booking.Request
    requires HasRequired(SlotSelect, ans)
  {
    Booking.Request(ans[AutoKey], ans[YearKey], ans[VinKey], ans[TelefonKey], ans[OpisKey])
  }

  /**
   * `slot_selected` after `isoparse` gave `slotStart` (None: answering the
   * press or `isoparse` raised, and the update is dropped). A missing answer
   * raises before anything is written. The conversation ends only when the
   * handler returns END; an overlap, or an exception that leaves the
   * handler, keeps the state.
   */
  function OnSlot(c: Conf, slotStart: Option<int>, recheck: FreeBusy, calls: Booking.Calls): (r: Conf)
    ensures r.answers == c.answers
    ensures r != c ==> r.state == Idle && slotStart.Some? && calls.appendOk && calls.confirmOk
  {
    if slotStart.None? || !(HasRequired(SlotSelect, c.answers)) then c
    else
      var n := Booking.Negotiate(recheck, Interval(slotStart.value, slotStart.value + SlotMinutes), calls);
      if Booking.VerdictOf(n, calls) == Booking.Done then Conf(Idle, c.answers) else c
  }

  /**
   * What the world answers while one update is handled: the free/busy answer
   * and the day number `get_free_slots` sees, the parsed callback, the answer
   * to the repeated query, which remote calls of the booking go through, and
   * the two formatted times of the ledger row.
   */
  datatype Env = Env(query: FreeBusy, today: int, slotStart: Option<int>, recheck: FreeBusy,
                     calls: Booking.Calls, createdAt: string, slotText: string)

  /** One update, routed by `conv_handler` and handled. */
  function Next(c: Conf, input: Input, env: Env): (r: Conf)
    ensures Route(c.state, input) == NoHandler ==> r == c
    ensures r.state == SlotSelect ==> c.state == Opis || c.state == SlotSelect
  {
    match Route(c.state, input)
    case NoHandler => c
    case ZapisHandler => OnAuto(c, input.messageText)
    case AutoHandler => OnAuto(c, input.text)
    case YearHandler => OnYear(c, input.text)
    case VinHandler => OnVin(c, input.text)
    case TelefonHandler => OnTelefon(c, input.text)
    case OpisHandler => OnOpis(c, input.text, Offered(env.query, env.today))
    case SlotHandler => OnSlot(c, env.slotStart, env.recheck, env.calls)
  }

  /** Each checked answer that a handler stores passes the check the invariant asks for. */
  lemma StoredAnswersValid(text: string)
    ensures CheckVehicle(text).Vehicle? ==> ValidAuto(StoredVehicle(CheckVehicle(text)))
    ensures CheckYear(text).Some? ==> ValidYear(CheckYear(text).value)
    ensures CheckVin(text).Some? ==> ValidVin(CheckVin(text).value)
    ensures CheckPhone(text).Some? ==> ValidPhone(CheckPhone(text).value)
  {
    if CheckVehicle(text).Vehicle? {
      StoredVehicleAccepted(text);
    }
    CheckYearIff(text);
    if CheckVin(text).Some? {
      VinIdempotent(text);
    }
  }

  /** Storing an answer that passed its check keeps every stored answer valid. */
  lemma StoreKeepsValid(ans: map<Field, string>, f: Field, v: string)
    requires AnswersValid(ans) && FieldValid(f, v)
    ensures AnswersValid(ans[f := v])
  {
    var ans' := ans[f := v];
    forall g | g in ans' ensures FieldValid(g, ans'[g]) {
      if g != f {
        assert ans'[g] == ans[g];
      }
    }
  }

  /** On a valid answer `get_auto` stores a valid vehicle; the other answers stay. */
  lemma OnAutoKeepsInvariant(c: Conf, text: string)
    requires Invariant(c)
    ensures Invariant(OnAuto(c, text))
  {
    var v := CheckVehicle(text);
    if v.Vehicle? {
      StoredVehicleAccepted(text);
      var ans := c.answers[AutoKey := StoredVehicle(v)];
      assert ans[AutoKey] == StoredVehicle(v);
      assert ValidAuto(ans[AutoKey]);
    }
  }

  lemma OnYearKeepsInvariant(c: Conf, text: string)
    requires Invariant(c) && c.state == Year
    ensures Invariant(OnYear(c, text))
  {
    CheckYearIff(text);
  }

  lemma OnVinKeepsInvariant(c: Conf, text: string)
    requires Invariant(c) && c.state == Vin
    ensures Invariant(OnVin(c, text))
  {
    if CheckVin(text).Some? {
      VinIdempotent(text);
      StoreKeepsValid(c.answers, VinKey, CheckVin(text).value);
    }
  }

  lemma OnTelefonKeepsInvariant(c: Conf, text: string)
    requires Invariant(c) && c.state == Telefon
    ensures Invariant(OnTelefon(c, text))
  {
  }

  lemma OnOpisKeepsInvariant(c: Conf, text: string, slots: seq<Interval>)
    requires Invariant(c) && c.state == Opis
    ensures Invariant(OnOpis(c, text, slots))
  {
  }

  lemma OnSlotKeepsInvariant(c: Conf, slotStart: Option<int>, recheck: FreeBusy, calls: Booking.Calls)
    requires Invariant(c)
    ensures Invariant(OnSlot(c, slotStart, recheck, calls))
  {
  }

  /**
   * Every update keeps the invariant: whichever state the conversation is in,
   * the answers of the earlier questions are stored and valid.
   */
  lemma NextKeepsInvariant(c: Conf, input: Input, env: Env)
    requires Invariant(c)
    ensures Invariant(Next(c, input, env))
  {
    match Route(c.state, input)
    case NoHandler =>
    case ZapisHandler => OnAutoKeepsInvariant(c, input.messageText);
    case AutoHandler => OnAutoKeepsInvariant(c, input.text);
    case YearHandler => OnYearKeepsInvariant(c, input.text);
    case VinHandler => OnVinKeepsInvariant(c, input.text);
    case TelefonHandler => OnTelefonKeepsInvariant(c, input.text);
    case OpisHandler => OnOpisKeepsInvariant(c, input.text, Offered(env.query, env.today));
    case SlotHandler => OnSlotKeepsInvariant(c, env.slotStart, env.recheck, env.calls);
  }

  /** The request booked in the selection state carries a valid vehicle, year, VIN and phone. */
  lemma BookedRequestValid(c: Conf)
    requires Invariant(c) && c.state == SlotSelect
    ensures var r := RequestOf(c.answers);
            ValidAuto(r.auto) && ValidYear(r.year) && ValidVin(r.vin) && ValidPhone(r.telefon)
  {
    var ans := c.answers;
    assert FieldValid(AutoKey, ans[AutoKey]) && FieldValid(YearKey, ans[YearKey]);
    assert FieldValid(VinKey, ans[VinKey]) && FieldValid(TelefonKey, ans[TelefonKey]);
  }

  /** A refused answer keeps the question and stores nothing. */
  lemma RefusalAsksAgain(c: Conf, text: string, env: Env)
    requires !IsCommand(text)
    ensures c.state == Auto && !CheckVehicle(text).Vehicle? ==> Next(c, Message(text), env) == c
    ensures c.state == Year && CheckYear(text).None? ==> Next(c, Message(text), env) == c
    ensures c.state == Vin && CheckVin(text).None? ==> Next(c, Message(text), env) == c
    ensures c.state == Telefon && CheckPhone(text).None? ==> Next(c, Message(text), env) == c
  {
  }

  /** Commands, and presses outside the entry point and the slot buttons, change nothing. */
  lemma UnroutedIsIgnored(c: Conf, input: Input, env: Env)
    requires (input.Message? && IsCommand(input.text))
             || (input.Press? && !(c.state == Idle && IsZapis(input.data))
                 && !(c.state == SlotSelect && SlotPattern(input.data)))
    ensures Next(c, input, env) == c
  {
  }

  /** One accepted answer to the vehicle question. */
  lemma AutoStep(c: Conf, text: string, env: Env)
    requires c.state == Auto && !IsCommand(text) && CheckVehicle(text).Vehicle?
    ensures Next(c, Message(text), env) == Conf(Year, c.answers[AutoKey := StoredVehicle(CheckVehicle(text))])
  {
    assert Route(c.state, Message(text)) == AutoHandler;
  }

  /** One accepted answer to the year question. */
  lemma YearStep(c: Conf, text: string, env: Env)
    requires c.state == Year && !IsCommand(text) && CheckYear(text).Some?
    ensures Next(c, Message(text), env) == Conf(Vin, c.answers[YearKey := CheckYear(text).value])
  {
    assert Route(c.state, Message(text)) == YearHandler;
  }

  /** One accepted answer to the VIN question. */
  lemma VinStep(c: Conf, text: string, env: Env)
    requires c.state == Vin && !IsCommand(text) && CheckVin(text).Some?
    ensures Next(c, Message(text), env) == Conf(Telefon, c.answers[VinKey := CheckVin(text).value])
  {
    assert Route(c.state, Message(text)) == VinHandler;
  }

  /** One accepted answer to the phone question. */
  lemma TelefonStep(c: Conf, text: string, env: Env)
    requires c.state == Telefon && !IsCommand(text) && CheckPhone(text).Some?
    ensures Next(c, Message(text), env) == Conf(Opis, c.answers[TelefonKey := CheckPhone(text).value])
  {
    assert Route(c.state, Message(text)) == TelefonHandler;
  }

  /** The problem description, with slots on offer. */
  lemma OpisStep(c: Conf, text: string, env: Env)
    requires c.state == Opis && !IsCommand(text) && |Offered(env.query, env.today)| > 0
    ensures Next(c, Message(text), env) == Conf(SlotSelect, c.answers[OpisKey := text])
  {
    assert Route(c.state, Message(text)) == OpisHandler;
  }

  /**
   * Five accepted answers and a non-empty offer lead from the vehicle question
   * to the slot choice, with exactly the checked values stored.
   */
  lemma AnswersReachSlotChoice(ans: map<Field, string>, auto: string, year: string, vin: string,
                               phone: string, opis: string, env: Env)
    requires !IsCommand(auto) && !IsCommand(year) && !IsCommand(vin) && !IsCommand(phone) && !IsCommand(opis)
    requires CheckVehicle(auto).Vehicle? && CheckYear(year).Some? && CheckVin(vin).Some? && CheckPhone(phone).Some?
    requires |Offered(env.query, env.today)| > 0
    ensures Next(Next(Next(Next(Next(Conf(Auto, ans), Message(auto), env), Message(year), env),
                               Message(vin), env), Message(phone), env), Message(opis), env)
            == Conf(SlotSelect, ans[AutoKey := StoredVehicle(CheckVehicle(auto))][YearKey := CheckYear(year).value]
                                   [VinKey := CheckVin(vin).value][TelefonKey := CheckPhone(phone).value][OpisKey := opis])
  {
    var c1 := Next(Conf(Auto, ans), Message(auto), env);
    AutoStep(Conf(Auto, ans), auto, env);
    var c2 := Next(c1, Message(year), env);
    YearStep(c1, year, env);
    var c3 := Next(c2, Message(vin), env);
    VinStep(c2, vin, env);
    var c4 := Next(c3, Message(phone), env);
    TelefonStep(c3, phone, env);
    OpisStep(c4, opis, env);
  }

  /**
   * In the selection state a parsed press ends the conversation exactly when
   * there is no overlap to report and the ledger append, the operator message
   * and the confirmation all go through; otherwise nothing changes. The
   * answers stay as they were.
   */
  lemma SlotChoiceEnds(c: Conf, data: string, messageText: string, env: Env)
    requires Invariant(c) && c.state == SlotSelect && SlotPattern(data) && env.slotStart.Some?
    ensures var n := Booking.Negotiate(env.recheck, Interval(env.slotStart.value, env.slotStart.value + SlotMinutes), env.calls);
            Next(c, Press(data, messageText), env)
            == if n != Booking.Conflict && env.calls.appendOk && env.calls.confirmOk then Conf(Idle, c.answers) else c
  {
  }

  /** An ISO timestamp as `isoformat` writes it for a slot start matches the slot buttons' pattern, "zapis" does not. */
  lemma PatternExamples()
    ensures SlotPattern("2025-06-02T08:00:00+02:00")
    ensures !SlotPattern("zapis") && IsZapis("zapis") && !IsZapis("zapisz")
  {
  }

  /** One Telegram user's conversation: its state and `context.user_data`. */
  class Session {
    var state: State
    var userData: map<Field, string>

    ghost predicate Valid()
      reads this
    {
      Invariant(Conf(state, userData))
    }

    /** A user who has not started a booking. */
    constructor ()
      ensures Valid() && state == Idle && userData == map[]
    {
      state := Idle;
      userData := map[];
    }

    method GetAuto(text: string)
      requires Valid()
      modifies this
      ensures Valid()
      ensures Conf(state, userData) == OnAuto(old(Conf(state, userData)), text)
    {
      var v := CheckVehicle(text);
      if !v.Vehicle? {
        state := Auto;
        return;
      }
      OnAutoKeepsInvariant(Conf(state, userData), text);
      userData := userData[AutoKey := StoredVehicle(v)];
      state := Year;
    }

    /** `handle_zapis`: `get_auto` on the callback, whose message is the menu the button sits under. */
    method HandleZapis(messageText: string)
      requires Valid()
      modifies this
      ensures Valid()
      ensures Conf(state, userData) == OnAuto(old(Conf(state, userData)), messageText)
    {
      GetAuto(messageText);
    }

    method GetYear(text: string)
      requires Valid() && state == Year
      modifies this
      ensures Valid()
      ensures Conf(state, userData) == OnYear(old(Conf(state, userData)), text)
    {
      var y := CheckYear(text);
      if y.None? {
        return;
      }
      OnYearKeepsInvariant(Conf(state, userData), text);
      userData := userData[YearKey := y.value];
      state := Vin;
    }

    method GetVin(text: string)
      requires Valid() && state == Vin
      modifies this
      ensures Valid()
      ensures Conf(state, userData) == OnVin(old(Conf(state, userData)), text)
    {
      var v := CheckVin(text);
      if v.None? {
        return;
      }
      OnVinKeepsInvariant(Conf(state, userData), text);
      userData := userData[VinKey := v.value];
      state := Telefon;
    }

    method GetTelefon(text: string)
      requires Valid() && state == Telefon
      modifies this
      ensures Valid()
      ensures Conf(state, userData) == OnTelefon(old(Conf(state, userData)), text)
    {
      var p := CheckPhone(text);
      if p.None? {
        return;
      }
      OnTelefonKeepsInvariant(Conf(state, userData), text);
      userData := userData[TelefonKey := p.value];
      state := Opis;
    }

    /**
     * `get_opis`: the slot starts behind the buttons, the first ten of what
     * `get_free_slots` returns, in its order.
     */
    method GetOpis(text: string, query: FreeBusy, today: int) returns (offered: seq<int>)
      requires Valid() && state == Opis
      modifies this
      ensures Valid()
      ensures Conf(state, userData) == OnOpis(old(Conf(state, userData)), text, Offered(query, today))
      ensures |offered| == |Offered(query, today)| <= FreeSlots.MaxSlots
      ensures forall i :: 0 <= i < |offered| ==> offered[i] == Offered(query, today)[i].start
    {
      ghost var c0 := Conf(state, userData);
      userData := userData[OpisKey := text];
      var slots := FreeSlots.GetFreeSlots(query, today);
      assert slots == Offered(query, today);
      OnOpisKeepsInvariant(c0, text, slots);
      if |slots| == 0 {
        state := Idle;
        return [];
      }
      var shown := Take(slots, FreeSlots.MaxSlots);
      offered := seq(|shown|, i requires 0 <= i < |shown| => shown[i].start);
      state := SlotSelect;
    }

    /**
     * `slot_selected`: `slotStart` is what `isoparse` made of the callback
     * data (None when answering the press or `isoparse` raised); the rest is
     * `Booking.SelectSlot`, and the state becomes END only when it returns END.
     */
    method SlotSelected(b: Booking.Backend, slotStart: Option<int>, recheck: FreeBusy, calls: Booking.Calls,
                        createdAt: string, slotText: string)
      requires Valid() && state == SlotSelect
      modifies this, b
      ensures Valid()
      ensures Conf(state, userData) == OnSlot(old(Conf(state, userData)), slotStart, recheck, calls)
      ensures slotStart.None? ==> b.Snap() == old(b.Snap())
      ensures slotStart.Some? ==>
                b.Snap() == Booking.Effect(old(b.Snap()),
                                           Booking.Negotiate(recheck, Interval(slotStart.value, slotStart.value + SlotMinutes), calls),
                                           calls, RequestOf(userData), slotStart.value, createdAt, slotText)
    {
      if slotStart.None? {
        return;
      }
      ghost var c0 := Conf(state, userData);
      OnSlotKeepsInvariant(c0, slotStart, recheck, calls);
      var verdict := Booking.SelectSlot(b, RequestOf(userData), slotStart.value, recheck, calls, createdAt, slotText);
      assert OnSlot(c0, slotStart, recheck, calls) == if verdict == Booking.Done then Conf(Idle, c0.answers) else c0;
      if verdict == Booking.Done {
        state := Idle;
      }
    }

    /** One update through `conv_handler`. */
    method Step(b: Booking.Backend, input: Input, env: Env)
      requires Valid()
      modifies this, b
      ensures Valid()
      ensures Conf(state, userData) == Next(old(Conf(state, userData)), input, env)
      ensures Route(old(state), input) != SlotHandler ==> b.Snap() == old(b.Snap())
      ensures Route(old(state), input) == SlotHandler && env.slotStart.None? ==> b.Snap() == old(b.Snap())
      ensures Route(old(state), input) == SlotHandler && env.slotStart.Some? ==>
                b.Snap() == Booking.Effect(old(b.Snap()),
                                           Booking.Negotiate(env.recheck, Interval(env.slotStart.value, env.slotStart.value + SlotMinutes), env.calls),
                                           env.calls, RequestOf(old(userData)), env.slotStart.value, env.createdAt, env.slotText)
    {
      match Route(state, input)
      case NoHandler =>
      case ZapisHandler => HandleZapis(input.messageText);
      case AutoHandler => GetAuto(input.text);
      case YearHandler => GetYear(input.text);
      case VinHandler => GetVin(input.text);
      case TelefonHandler => GetTelefon(input.text);
      case OpisHandler => var _ := GetOpis(input.text, env.query, env.today);
      case SlotHandler => SlotSelected(b, env.slotStart, env.recheck, env.calls, env.createdAt, env.slotText);
    }
  }
}
