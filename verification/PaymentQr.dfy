/** The cached payment code of one account (app/services/browser_automation.py:123-127, 2598-2615, 2640-2701, 3222-3234,
    3958-4005, 4128-4130). Operations hold the account's lock across their requests; a status poll does not. The lock
    holder's sections between two awaits are the steps. */
module PaymentQr {
  import opened Wrappers

  const QR_VALID_SECONDS: real := 60.0

  /** The entry of one account; `expiresAt` is 0 until a code was loaded. */
  datatype Payment = Payment(channel: string, qrCode: string, tradeNo: string, expiresAt: real, png: Option<string>)

  /** What a refresh remembers from its beginning. */
  datatype Refresh = Refresh(channel: string, previousQr: string, previousTradeNo: string, started: real, second: bool)

  datatype Holder =
    | Idle
    | Ordering
    | Activating(channel: string, refresh: Option<Refresh>)
    | Pausing(paused: Refresh)
    | Rendering

  /** `polls` are the entries copied by status polls whose answers are outstanding. */
  datatype State = State(now: real, cached: Option<Payment>, holder: Holder, polls: seq<Payment>)

  /** The provider's answer to a code request; Failed also stands for an exception or a cancelled call. */
  datatype Answer = Failed | NoCode | Code(qrCode: string, tradeNo: string)

  datatype Event =
    | Tick(elapsed: real)
    | StartOrder
    | OrderAnswered(ok: bool)
    | StartActivate(channel: string)
    | StartRefresh
    | CodeAnswered(answer: Answer)
    | PauseOver
    | StartFetch
    | Rendered(ok: bool)
    | Close
    | StartPoll
    | PollAnswered(poll: nat)

  datatype Output =
    | Silent
    | Ready(remaining: nat)
    | Refreshed(refresh: Refresh, remaining: nat)
    | Unchanged(remaining: nat)
    | Unavailable
    | Picture(png: string)
    | Polled(remaining: nat)

  // ---------------------------------------------------------------- the steps

  function RemainingSeconds(payment: Payment, now: real): nat {
    var seconds := (payment.expiresAt - now + 0.999).Floor;
    if seconds < 0 then 0 else seconds
  }

  function Min(a: real, b: real): real {
    if a < b then a else b
  }

  /** The code differs from the one the refresh began with, or its trade number is a new one. */
  predicate Changed(refresh: Refresh, payment: Payment) {
    || refresh.previousQr == "" || payment.qrCode != refresh.previousQr
    || (payment.tradeNo != "" && payment.tradeNo != refresh.previousTradeNo)
  }

  function Activated(channel: string, qrCode: string, tradeNo: string, now: real): Payment {
    Payment(channel, qrCode, tradeNo, now + QR_VALID_SECONDS, None)
  }

  function Settled(s: State, refresh: Refresh, payment: Payment): (State, Output) {
    if Changed(refresh, payment) then
      var deadline := refresh.started + QR_VALID_SECONDS;
      var capped := payment.(expiresAt := Min(if payment.expiresAt != 0.0 then payment.expiresAt else deadline, deadline));
      (s.(cached := Some(capped), holder := Idle), Refreshed(refresh, RemainingSeconds(capped, s.now)))
    else if !refresh.second then (s.(cached := Some(payment), holder := Pausing(refresh)), Silent)
    else (s.(cached := Some(payment), holder := Idle), Unchanged(RemainingSeconds(payment, s.now)))
  }

  function Answered(s: State, answer: Answer): (State, Output)
    requires s.holder.Activating?
  {
    match answer
    case Code(qrCode, tradeNo) =>
      if qrCode == "" then (s.(holder := Idle), Unavailable)
      else
        var active := Activated(s.holder.channel, qrCode, tradeNo, s.now);
        (match s.holder.refresh
         case Some(refresh) => Settled(s, refresh, active)
         case None => (s.(cached := Some(active), holder := Idle), Ready(RemainingSeconds(active, s.now))))
    case _ => (s.(holder := Idle), Unavailable)
  }

  /** An event that cannot happen in a state changes nothing. */
  function Step(render: string -> string, s: State, event: Event): (State, Output) {
    match event
    case Tick(elapsed) => if elapsed >= 0.0 then (s.(now := s.now + elapsed), Silent) else (s, Silent)
    case StartOrder => if s.holder.Idle? then (s.(holder := Ordering), Silent) else (s, Silent)
    case OrderAnswered(ok) =>
      if !s.holder.Ordering? then (s, Silent)
      else if ok then (s.(cached := Some(Payment("", "", "", 0.0, None)), holder := Idle), Silent)
      else (s.(holder := Idle), Silent)
    case StartActivate(channel) =>
      if s.holder.Idle? && s.cached.Some? then (s.(holder := Activating(channel, None)), Silent) else (s, Silent)
    case StartRefresh =>
      if s.holder.Idle? && s.cached.Some? then
        var p := s.cached.value;
        var channel := if p.channel == "" then "wechat" else p.channel;
        (s.(holder := Activating(channel, Some(Refresh(channel, p.qrCode, p.tradeNo, s.now, false)))), Silent)
      else (s, Silent)
    case CodeAnswered(answer) =>
      if s.holder.Activating? && s.cached.Some? then Answered(s, answer) else (s, Silent)
    case PauseOver =>
      if s.holder.Pausing? && s.cached.Some? then
        (s.(holder := Activating(s.holder.paused.channel, Some(s.holder.paused.(second := true)))), Silent)
      else (s, Silent)
    case StartFetch =>
      if !s.holder.Idle? || s.cached.None? then (s, Silent)
      else if s.cached.value.qrCode == "" then (s, Unavailable)
      else if s.cached.value.png.Some? && s.cached.value.expiresAt > s.now then (s, Picture(s.cached.value.png.value))
      else (s.(holder := Rendering), Silent)
    case Rendered(ok) =>
      if !s.holder.Rendering? || s.cached.None? then (s, Silent)
      else if !ok then (s.(holder := Idle), Unavailable)
      else
        var png := render(s.cached.value.qrCode);
        (s.(cached := Some(s.cached.value.(png := Some(png))), holder := Idle), Picture(png))
    case Close => if s.holder.Idle? then (s.(cached := None), Silent) else (s, Silent)
    case StartPoll => if s.cached.Some? then (s.(polls := s.polls + [s.cached.value]), Silent) else (s, Silent)
    case PollAnswered(i) =>
      if i < |s.polls| then
        var current := if s.cached.Some? then s.cached.value else s.polls[i];
        (s.(polls := s.polls[..i] + s.polls[i + 1..]), Polled(RemainingSeconds(current, s.now)))
      else (s, Silent)
  }

  // ---------------------------------------------------------------- the operations as the source runs them

  /** The steps of one refresh, in order: its beginning, the first answer and, after a pause, the second one. */
  function RefreshSteps(render: string -> string, cached: Option<Payment>, answers: nat -> Answer, clock: nat -> real)
    : (State, Output)
  {
    var begun := Step(render, State(clock(0), cached, Idle, []), StartRefresh).0;
    var first := Step(render, begun.(now := clock(1)), CodeAnswered(answers(0)));
    if first.0.holder.Pausing? then
      var again := Step(render, first.0, PauseOver).0;
      Step(render, again.(now := clock(2)), CodeAnswered(answers(1)))
    else first
  }

  /** The account's entry; every method runs while the account's lock is held. */
  class Entry {
    var cached: Option<Payment>

    constructor ()
      ensures cached == None
    {
      cached := None;
    }

    /** What follows the provider's answer to an order; a failed one leaves the old payment. */
    method Order(render: string -> string, now: real, ok: bool)
      modifies this
      ensures cached == Step(render, State(now, old(cached), Ordering, []), OrderAnswered(ok)).0.cached
    {
      if !ok { return; }
      cached := Some(Payment("", "", "", 0.0, None));
    }

    /** What follows the provider's answer to a code request. */
    method Activate(channel: string, answer: Answer, now: real) returns (ready: bool)
      requires cached.Some?
      modifies this
      ensures ready <==> answer.Code? && answer.qrCode != ""
      ensures cached == if ready then Some(Activated(channel, answer.qrCode, answer.tradeNo, now)) else old(cached)
    {
      if !answer.Code? || answer.qrCode == "" { return false; }
      var payment := cached.value;
      payment := payment.(channel := channel, qrCode := answer.qrCode, tradeNo := answer.tradeNo,
                          expiresAt := now + QR_VALID_SECONDS);
      payment := payment.(png := None);
      cached := Some(payment);
      return true;
    }

    /** One attempt of a refresh; None when the code has not changed. */
    method Attempt(refresh: Refresh, answer: Answer, now: real) returns (done: Option<Output>)
      requires cached.Some?
      modifies this
      ensures var step := Answered(State(now, old(cached), Activating(refresh.channel, Some(refresh)), []), answer);
        && cached == step.0.cached && cached.Some?
        && done == if step.1.Silent? || step.1.Unchanged? then None else Some(step.1)
    {
      hide RemainingSeconds;
      var ready := Activate(refresh.channel, answer, now);
      if !ready { return Some(Unavailable); }
      var next := cached.value;
      if refresh.previousQr == "" || next.qrCode != refresh.previousQr
         || (next.tradeNo != "" && next.tradeNo != refresh.previousTradeNo)
      {
        var deadline := refresh.started + QR_VALID_SECONDS;
        next := next.(expiresAt := Min(if next.expiresAt != 0.0 then next.expiresAt else deadline, deadline));
        cached := Some(next);
        return Some(Refreshed(refresh, RemainingSeconds(next, now)));
      }
      return None;
    }

    /** `answers(k)` and `clock(k + 1)` belong to attempt k; `clock(0)` is when the refresh begins. */
    method RefreshPaymentQr(render: string -> string, answers: nat -> Answer, clock: nat -> real)
      returns (output: Output)
      requires cached.Some?
      modifies this
      ensures cached == RefreshSteps(render, old(cached), answers, clock).0.cached
      ensures output == RefreshSteps(render, old(cached), answers, clock).1
    {
      hide RemainingSeconds, Changed;
      var before := cached.value;
      var channel := if before.channel == "" then "wechat" else before.channel;
      var refresh := Refresh(channel, before.qrCode, before.tradeNo, clock(0), false);
      ghost var first := Answered(State(clock(1), old(cached), Activating(channel, Some(refresh)), []), answers(0));
      for attempt := 0 to 2
        invariant cached.Some?
        invariant attempt == 0 ==> cached == old(cached)
        invariant attempt > 0 ==> first.0.holder == Pausing(refresh)
        invariant attempt == 1 ==> cached == first.0.cached
        invariant attempt == 2 ==>
          cached == RefreshSteps(render, old(cached), answers, clock).0.cached
          && Unchanged(RemainingSeconds(cached.value, clock(2))) == RefreshSteps(render, old(cached), answers, clock).1
      {
        var done := Attempt(refresh.(second := attempt == 1), answers(attempt), clock(attempt + 1));
        if done.Some? { return done.value; }
      }
      return Unchanged(RemainingSeconds(cached.value, clock(2)));
    }

    /** `ok` tells whether the picture can be rendered. */
    method GetPaymentQr(render: string -> string, now: real, ok: bool) returns (output: Output)
      modifies this
      ensures var started := Step(render, State(now, old(cached), Idle, []), StartFetch);
        var finished := if started.0.holder.Rendering? then Step(render, started.0, Rendered(ok)) else started;
        cached == finished.0.cached && (old(cached).Some? ==> output == finished.1)
    {
      if cached.None? { return Silent; }
      if cached.value.qrCode == "" { return Unavailable; }
      if cached.value.png.Some? && cached.value.expiresAt > now { return Picture(cached.value.png.value); }
      if !ok { return Unavailable; }
      var png := render(cached.value.qrCode);
      cached := Some(cached.value.(png := Some(png)));
      return Picture(png);
    }

    method CloseSession(render: string -> string, now: real)
      modifies this
      ensures cached == Step(render, State(now, old(cached), Idle, []), Close).0.cached
    {
      cached := None;
    }
  }

  // ---------------------------------------------------------------- what every run keeps

  predicate InTime(payment: Payment, now: real) {
    payment.expiresAt <= now + QR_VALID_SECONDS
  }

  predicate Inv(render: string -> string, s: State) {
    && s.now >= 0.0
    && (s.cached.Some? ==>
          && InTime(s.cached.value, s.now)
          && (s.cached.value.png.Some? ==> s.cached.value.png.value == render(s.cached.value.qrCode)))
    && (!s.holder.Idle? && !s.holder.Ordering? ==> s.cached.Some?)
    && (s.holder.Rendering? ==> s.cached.Some? && s.cached.value.qrCode != "")
    && (s.holder.Activating? && s.holder.refresh.Some? ==> s.holder.refresh.value.started <= s.now)
    && (s.holder.Pausing? ==> s.holder.paused.started <= s.now)
    && (forall i :: 0 <= i < |s.polls| ==> InTime(s.polls[i], s.now))
  }

  predicate Refreshing(s: State, refresh: Refresh) {
    || (s.holder.Activating? && s.holder.refresh == Some(refresh))
    || (s.holder.Pausing? && s.holder.paused == refresh)
  }

  predicate Sound(render: string -> string, s: State, output: Output) {
    match output
    case Ready(remaining) => remaining <= 60
    case Refreshed(_, remaining) => remaining <= 60
    case Unchanged(remaining) => remaining <= 60
    case Polled(remaining) => remaining <= 60
    case Picture(png) => s.cached.Some? && s.cached.value.qrCode != "" && png == render(s.cached.value.qrCode)
    case _ => true
  }

  lemma RemainingBound(payment: Payment, now: real)
    requires InTime(payment, now)
    ensures RemainingSeconds(payment, now) <= 60
  {
    assert payment.expiresAt - now + 0.999 <= 60.999;
  }

  lemma CodeAnsweredKeeps(render: string -> string, s: State, answer: Answer)
    requires Inv(render, s) && s.holder.Activating? && s.cached.Some?
    ensures Inv(render, Answered(s, answer).0) && Sound(render, Answered(s, answer).0, Answered(s, answer).1)
  {
    hide RemainingSeconds;
    if answer.Code? && answer.qrCode != "" {
      var active := Activated(s.holder.channel, answer.qrCode, answer.tradeNo, s.now);
      RemainingBound(active, s.now);
      if s.holder.refresh.Some? {
        var refresh := s.holder.refresh.value;
        if Changed(refresh, active) {
          var capped := Answered(s, answer).0.cached.value;
          assert InTime(capped, s.now);
          RemainingBound(capped, s.now);
        }
      }
    }
  }

  /** Every step keeps the invariant, and what it answers is sound. */
  lemma StepKeeps(render: string -> string, s: State, event: Event)
    requires Inv(render, s)
    ensures Inv(render, Step(render, s, event).0)
    ensures Sound(render, Step(render, s, event).0, Step(render, s, event).1)
  {
    hide RemainingSeconds, Answered;
    match event
    case CodeAnswered(answer) =>
      if s.holder.Activating? && s.cached.Some? { CodeAnsweredKeeps(render, s, answer); }
    case PollAnswered(i) =>
      if i < |s.polls| { RemainingBound(if s.cached.Some? then s.cached.value else s.polls[i], s.now); }
    case _ =>
  }

  const START := State(0.0, None, Idle, [])

  function Run(render: string -> string, events: seq<Event>): State {
    if events == [] then START else Step(render, Run(render, events[..|events| - 1]), events[|events| - 1]).0
  }

  /** In every interleaving: the cached picture shows the current code, and no answer promises more than 60 seconds. */
  lemma {:induction false} RunKeeps(render: string -> string, events: seq<Event>)
    ensures Inv(render, Run(render, events))
    ensures events != [] ==>
      Sound(render, Run(render, events),
            Step(render, Run(render, events[..|events| - 1]), events[|events| - 1]).1)
  {
    assert Inv(render, START);
    hide Step, Inv, Sound;
    if events != [] {
      RunKeeps(render, events[..|events| - 1]);
      StepKeeps(render, Run(render, events[..|events| - 1]), events[|events| - 1]);
    }
  }

  // ---------------------------------------------------------------- the deadline of a refresh

  /** The refresh in progress was begun by this step of the run. */
  predicate BegunAt(render: string -> string, events: seq<Event>, j: nat, refresh: Refresh) {
    && j < |events| && events[j].StartRefresh?
    && var before := Run(render, events[..j]);
       before.cached.Some? && refresh.started == before.now
       && refresh.previousQr == before.cached.value.qrCode && refresh.previousTradeNo == before.cached.value.tradeNo
  }

  lemma {:induction false} RefreshBegan(render: string -> string, events: seq<Event>, refresh: Refresh)
    returns (j: nat)
    requires Refreshing(Run(render, events), refresh)
    ensures BegunAt(render, events, j, refresh)
  {
    var n := |events| - 1;
    assert events != [];
    var front, last := events[..n], events[n];
    var before := Run(render, front);
    var earlier := StepRefreshing(render, before, last, refresh);
    if Refreshing(before, earlier) {
      j := RefreshBegan(render, front, earlier);
      assert front[..j] == events[..j];
    } else {
      j := n;
    }
  }

  /** A refresh in progress after a step was in progress before it, or was begun by it. */
  lemma StepRefreshing(render: string -> string, s: State, event: Event, refresh: Refresh) returns (earlier: Refresh)
    requires Refreshing(Step(render, s, event).0, refresh)
    ensures earlier.started == refresh.started && earlier.previousQr == refresh.previousQr
    ensures earlier.previousTradeNo == refresh.previousTradeNo
    ensures Refreshing(s, earlier)
      || (event.StartRefresh? && s.cached.Some? && refresh.started == s.now
          && refresh.previousQr == s.cached.value.qrCode && refresh.previousTradeNo == s.cached.value.tradeNo)
  {
    hide RemainingSeconds, Changed;
    earlier := if s.holder.Pausing? then s.holder.paused else refresh;
  }

  /**
   * A refresh that succeeds, on its first or its second attempt, leaves a code that differs from the one it began
   * with, valid until exactly 60 seconds after it began.
   */
  lemma RefreshDeadline(render: string -> string, events: seq<Event>, event: Event)
    returns (j: nat)
    requires Step(render, Run(render, events), event).1.Refreshed?
    ensures var output := Step(render, Run(render, events), event).1;
      var payment := Step(render, Run(render, events), event).0.cached;
      && BegunAt(render, events, j, output.refresh)
      && payment.Some? && payment.value.expiresAt == output.refresh.started + 60.0
      && Changed(output.refresh, payment.value) && payment.value.png == None
  {
    hide RemainingSeconds, Run;
    var s := Run(render, events);
    RunKeeps(render, events);
    var refresh := Step(render, s, event).1.refresh;
    assert s.holder.Activating? && s.holder.refresh == Some(refresh);
    assert Refreshing(s, refresh);
    j := RefreshBegan(render, events, refresh);
  }

  /** A refresh that finds the code unchanged has still pushed the old code's deadline out. */
  lemma UnchangedExtends(render: string -> string, s: State, event: Event)
    requires Step(render, s, event).1.Unchanged?
    ensures var payment := Step(render, s, event).0.cached;
      && s.holder.Activating? && s.holder.refresh.Some?
      && payment.Some? && payment.value.qrCode == s.holder.refresh.value.previousQr
      && payment.value.expiresAt == s.now + 60.0
  {
    hide RemainingSeconds;
  }

  // ---------------------------------------------------------------- the code that is shown

  /** The answered seconds are the time left, rounded up but for a thousandth, and never below zero. */
  lemma RemainingExactly(payment: Payment, now: real)
    ensures
      var left := payment.expiresAt - now;
      var seconds := RemainingSeconds(payment, now) as real;
      seconds - 0.999 <= left < seconds + 0.001 || (seconds == 0.0 && left < 0.0)
  {
  }

  /** The step takes over the code of an answer. */
  predicate Accepts(s: State, event: Event) {
    event.CodeAnswered? && event.answer.Code? && event.answer.qrCode != "" && s.holder.Activating?
  }

  /** The payment has the code and the trade number of the answer and the channel asked for, and is valid for 60 seconds
      from the answer, or less after a refresh. */
  predicate CameWith(s: State, event: Event, payment: Payment) {
    && Accepts(s, event)
    && payment.qrCode == event.answer.qrCode && payment.tradeNo == event.answer.tradeNo
    && payment.channel == s.holder.channel && payment.expiresAt <= s.now + 60.0
    && (s.holder.refresh == None ==> payment.expiresAt == s.now + 60.0)
  }

  lemma AnsweredTakes(s: State, answer: Answer)
    requires s.holder.Activating? && s.now >= 0.0
    ensures var after := Answered(s, answer).0.cached;
      if answer.Code? && answer.qrCode != "" then
        && after.Some? && after.value.qrCode == answer.qrCode && after.value.tradeNo == answer.tradeNo
        && after.value.channel == s.holder.channel && after.value.expiresAt <= s.now + 60.0
        && (s.holder.refresh == None ==> after.value.expiresAt == s.now + 60.0)
      else after == s.cached
  {
    hide RemainingSeconds, Changed;
  }

  /** Every other step leaves code, trade number, channel and deadline, or there is no code afterwards. */
  lemma OthersLeave(render: string -> string, s: State, event: Event)
    requires Inv(render, s) && !Accepts(s, event)
    ensures var after := Step(render, s, event).0.cached;
      after.Some? && after.value.qrCode != "" ==>
        s.cached.Some? && after.value.(png := None) == s.cached.value.(png := None)
  {
    hide RemainingSeconds, Answered;
    if event.CodeAnswered? && s.holder.Activating? { AnsweredTakes(s, event.answer); }
  }

  /** In every run the cached code is the one of the last accepted answer. */
  lemma {:induction false} LatestCode(render: string -> string, events: seq<Event>) returns (i: nat)
    requires Run(render, events).cached.Some? && Run(render, events).cached.value.qrCode != ""
    ensures i < |events| && CameWith(Run(render, events[..i]), events[i], Run(render, events).cached.value)
    ensures forall k :: i < k < |events| ==> !Accepts(Run(render, events[..k]), events[k])
  {
    assert events != [];
    var n := |events| - 1;
    var s := Run(render, events[..n]);
    RunKeeps(render, events[..n]);
    if Accepts(s, events[n]) {
      StepTakes(render, s, events[n]);
      i := n;
    } else {
      OthersLeave(render, s, events[n]);
      hide Step, Inv, Accepts, CameWith;
      i := LatestCode(render, events[..n]);
      assert forall k :: 0 <= k <= n ==> events[..n][..k] == events[..k];
    }
  }

  lemma StepTakes(render: string -> string, s: State, event: Event)
    requires Inv(render, s) && Accepts(s, event)
    ensures var after := Step(render, s, event).0.cached; after.Some? && CameWith(s, event, after.value)
  {
    AnsweredTakes(s, event.answer);
    hide Answered;
  }

  /** And a code stays until it is replaced, an order succeeds or the session is closed. */
  lemma CodeStays(render: string -> string, s: State, event: Event)
    requires Inv(render, s) && s.cached.Some? && !Accepts(s, event)
    requires !(event == OrderAnswered(true) && s.holder.Ordering?) && !(event.Close? && s.holder.Idle?)
    ensures var after := Step(render, s, event).0.cached;
      after.Some? && after.value.(png := None) == s.cached.value.(png := None)
  {
    hide RemainingSeconds, Answered;
    if event.CodeAnswered? && s.holder.Activating? { AnsweredTakes(s, event.answer); }
  }
}
