/** Push button: debouncing, and the recognition of clicks, repeated clicks and long presses. */
module Button {
  import opened Bytes

  /** Kconfig and per-button times, in ticks. */
  datatype Config = Config(debounceTicks: nat, shortTicks: nat, longTicks: nat, serialTicks: nat)

  // ---- Debouncing -----------------------------------------------------------

  /** Level and counter after the given samples. */
  function Debounced(d: nat, s: seq<bool>): (bool, nat) {
    if s == [] then (false, 0)
    else
      var (level, cnt) := Debounced(d, s[..|s| - 1]);
      if s[|s| - 1] == level then (level, 0)
      else if cnt + 1 >= d then (s[|s| - 1], 0)
      else (level, cnt + 1)
  }

  /** How many samples ago the level has last changed, or since the beginning. */
  function SinceEdge(d: nat, s: seq<bool>): nat {
    if s == [] then 0
    else if Debounced(d, s).0 != Debounced(d, s[..|s| - 1]).0 then 0
    else SinceEdge(d, s[..|s| - 1]) + 1
  }

  /** The debounced level has been the same since then, and was another before. */
  lemma {:induction false} EdgeMeaning(d: nat, s: seq<bool>)
    ensures var k := SinceEdge(d, s);
            && k <= |s| && (forall n | |s| - k <= n <= |s| :: Level(d, s, n) == Level(d, s, |s|))
            && (k < |s| ==> Level(d, s, |s| - k - 1) != Level(d, s, |s|))
  {
    assert s[..|s|] == s;
    if s != [] {
      var front := s[..|s| - 1];
      EdgeMeaning(d, front);
      forall n | 0 <= n < |s|
        ensures Level(d, s, n) == Level(d, front, n)
      {
        assert front[..n] == s[..n];
      }
    }
  }

  /** The last n samples all differ from a level. */
  predicate AllDiffer(s: seq<bool>, n: int, level: bool) {
    0 <= n <= |s| && forall k | |s| - n <= k < |s| :: s[k] != level
  }

  /** The counter is the number of samples at the end that differ from the level. */
  lemma {:induction false} CounterMeaning(d: nat, s: seq<bool>)
    requires d >= 1
    ensures var (level, cnt) := Debounced(d, s);
            && AllDiffer(s, cnt, level) && (cnt < d || cnt == 0)
            && (cnt < |s| ==> s[|s| - 1 - cnt] == level)
            && (cnt == |s| ==> !level)
  {
    if s != [] {
      CounterMeaning(d, s[..|s| - 1]);
    }
  }

  /** The level flips exactly when the last d samples all differ from it. */
  lemma LevelFlipsExactly(d: nat, s: seq<bool>, x: bool)
    requires d >= 1
    ensures var level := Debounced(d, s).0;
            Debounced(d, s + [x]).0 != level <==> AllDiffer(s + [x], d, level)
  {
    CounterMeaning(d, s);
    var (level, cnt) := Debounced(d, s);
    var t := s + [x];
    assert t[..|t| - 1] == s;
    if cnt < |s| {
      assert t[|s| - 1 - cnt] == level;
    }
  }

  // ---- What a sequence of events has to look like ---------------------------

  datatype Event =
    | PressDown | PressUp | PressRepeat | PressRepeatDone(repeat: nat) | SingleClick | DoubleClick
    | MultipleClick(clicks: nat) | LongPressStart | LongPressHold | LongPressUp | PressEnd | NonePress

  /** Which clicks of a gesture have been reported: none, the single or double click, all. */
  datatype Clicks = NoneYet | FewOnly | AllOfThem

  /**
    An observer of the events: whether the button is pressed, the presses in
    the gesture so far (none outside one), the ticks since the last edge, the
    stages of a long press, the clicks reported, and what must follow in the
    same tick.
   */
  datatype Monitor = Monitor(
    pressed: bool, presses: nat, since: nat, long: bool, holds: nat, letGo: bool, again: bool, clicks: Clicks,
    closing: bool)

  const QUIET := Monitor(false, 0, 0, false, 0, false, false, NoneYet, false)

  /** Events of the same tick that are still missing. */
  predicate Quiet(m: Monitor) {
    !m.letGo && !m.again && !m.closing && m.clicks == NoneYet
  }

  /** A gesture whose last release is longer ago than a short press should have ended. */
  predicate EndIsLate(c: Config, m: Monitor) {
    !m.pressed && m.presses > 0 && m.since > c.shortTicks
  }

  /** A first press that has been held for longTicks, but for the tick it came in, should be a long one. */
  predicate LongPressIsLate(c: Config, m: Monitor) {
    m.pressed && m.presses == 1 && !m.long && m.since > 0 && m.since >= c.longTicks
  }

  /** A long press that has been held for another serialTicks should be reported as held. */
  predicate HoldIsLate(c: Config, m: Monitor) {
    m.long && c.serialTicks > 0 && c.longTicks > 0 && m.since >= HoldTime(c, m.holds)
  }

  function HoldTime(c: Config, holds: nat): nat {
    (holds + 1) * c.serialTicks + c.longTicks
  }

  lemma NextHold(c: Config, holds: nat)
    ensures HoldTime(c, holds + 1) == HoldTime(c, holds) + c.serialTicks
  {
  }

  /** A tick passes, if everything that was due has come. */
  function NextTick(c: Config, m: Monitor): Option<Monitor> {
    if !Quiet(m) || EndIsLate(c, m) || LongPressIsLate(c, m) || HoldIsLate(c, m) then None
    else Some(m.(since := m.since + 1))
  }

  /** The observer after an event, or None if the event may not come now. */
  function Watch(c: Config, m: Monitor, e: Event): Option<Monitor> {
    match e
    case PressDown =>
      if m.pressed || m.closing || m.again || m.clicks != NoneYet then None
      else Some(m.(pressed := true, presses := m.presses + 1, since := 0, again := m.presses > 0))
    case PressRepeat =>
      if m.again then Some(m.(again := false)) else None
    case PressUp =>
      if !m.pressed || m.again || m.long != m.letGo then None
      else Some(m.(pressed := false, since := 0, letGo := false,
                   closing := m.long || (m.presses > 1 && m.since >= c.shortTicks)))
    case SingleClick =>
      if ClickTime(c, m) && m.clicks == NoneYet && m.presses % 0x100 == 1 then Some(m.(clicks := FewOnly)) else None
    case DoubleClick =>
      if ClickTime(c, m) && m.clicks == NoneYet && m.presses % 0x100 == 2 then Some(m.(clicks := FewOnly)) else None
    case MultipleClick(n) =>
      if ClickTime(c, m) && n == m.presses % 0x100 && m.clicks == (if n in {1, 2} then FewOnly else NoneYet)
      then Some(m.(clicks := AllOfThem)) else None
    case PressRepeatDone(n) =>
      if ClickTime(c, m) && n == m.presses % 0x100 && m.clicks == AllOfThem then Some(m.(closing := true)) else None
    case LongPressStart =>
      if m.pressed && m.presses == 1 && !m.long && m.since == (if c.longTicks == 0 then 1 else c.longTicks)
      then Some(m.(long := true)) else None
    case LongPressHold =>
      if m.pressed && m.long && !m.letGo && m.since >= HoldTime(c, m.holds)
      then Some(m.(holds := m.holds + 1)) else None
    case LongPressUp =>
      if m.pressed && m.long && !m.letGo then Some(m.(letGo := true)) else None
    case PressEnd =>
      if m.closing then Some(QUIET.(since := m.since)) else None
    case NonePress => None
  }

  /** Clicks are reported once the button has been up for longer than a short press. */
  predicate ClickTime(c: Config, m: Monitor) {
    !m.pressed && m.presses > 0 && !m.closing && m.since == c.shortTicks + 1
  }

  function WatchAll(c: Config, m: Monitor, events: seq<Event>): Option<Monitor> {
    if events == [] then Some(m)
    else
      var before := WatchAll(c, m, events[..|events| - 1]);
      if before.None? then None else Watch(c, before.value, events[|events| - 1])
  }

  /** All ticks of a run. */
  function WatchTicks(c: Config, ticks: seq<seq<Event>>): Option<Monitor> {
    if ticks == [] then Some(QUIET)
    else
      var before := WatchTicks(c, ticks[..|ticks| - 1]);
      if before.None? || NextTick(c, before.value).None? then None
      else WatchAll(c, NextTick(c, before.value).value, ticks[|ticks| - 1])
  }

  function Count(events: seq<Event>, e: Event): nat {
    if events == [] then 0 else Count(events[..|events| - 1], e) + (if events[|events| - 1] == e then 1 else 0)
  }

  function CountTicks(ticks: seq<seq<Event>>, e: Event): nat {
    if ticks == [] then 0 else CountTicks(ticks[..|ticks| - 1], e) + Count(ticks[|ticks| - 1], e)
  }

  function One(b: bool): nat {
    if b then 1 else 0
  }

  predicate MonitorOk(m: Monitor) {
    && (m.closing ==> m.presses > 0 && !m.pressed)
    && (m.again ==> m.pressed && m.presses > 1 && !m.closing)
    && (m.clicks != NoneYet ==> !m.pressed && m.presses > 0)
    && (m.pressed ==> m.presses > 0)
  }

  lemma CountsInEvent(c: Config, m: Monitor, e: Event)
    requires MonitorOk(m) && Watch(c, m, e).Some?
    ensures var n := Watch(c, m, e).value;
            && MonitorOk(n)
            && One(m.pressed) + One(e == PressDown) == One(e == PressUp) + One(n.pressed)
            && One(m.presses > 0) + One(m.again) + One(e == PressDown) ==
                 One(e == PressRepeat) + One(e == PressEnd) + One(n.presses > 0) + One(n.again)
  {
  }

  lemma {:induction false} CountsInTick(c: Config, m: Monitor, events: seq<Event>)
    requires MonitorOk(m) && WatchAll(c, m, events).Some?
    ensures var n := WatchAll(c, m, events).value;
            && MonitorOk(n)
            && One(m.pressed) + Count(events, PressDown) == Count(events, PressUp) + One(n.pressed)
            && One(m.presses > 0) + One(m.again) + Count(events, PressDown) ==
                 Count(events, PressRepeat) + Count(events, PressEnd) + One(n.presses > 0) + One(n.again)
    decreases |events|
  {
    if events != [] {
      var front := events[..|events| - 1];
      CountsInTick(c, m, front);
      CountsInEvent(c, WatchAll(c, m, front).value, events[|events| - 1]);
    }
  }

  /** Presses and releases alternate, and every gesture that is over has ended once. */
  lemma {:induction false} CountsAgree(c: Config, ticks: seq<seq<Event>>)
    requires WatchTicks(c, ticks).Some?
    ensures var m := WatchTicks(c, ticks).value;
            && MonitorOk(m)
            && CountTicks(ticks, PressDown) == CountTicks(ticks, PressUp) + One(m.pressed)
            && CountTicks(ticks, PressDown) ==
                 CountTicks(ticks, PressRepeat) + CountTicks(ticks, PressEnd) + One(m.presses > 0) + One(m.again)
  {
    if ticks != [] {
      var front := ticks[..|ticks| - 1];
      CountsAgree(c, front);
      CountsInTick(c, NextTick(c, WatchTicks(c, front).value).value, ticks[|ticks| - 1]);
    }
  }

  /** Clicks that are followed by PRESS_REPEAT_DONE, with the number of presses they stand for. */
  predicate IsClick(e: Event) {
    e.SingleClick? || e.DoubleClick? || e.MultipleClick?
  }

  function DoneAfter(e: Event): Event
    requires IsClick(e)
  {
    match e
    case SingleClick => PressRepeatDone(1)
    case DoubleClick => PressRepeatDone(2)
    case MultipleClick(n) => PressRepeatDone(n)
  }

  /** This click has been reported, but not yet the end of the clicks. */
  predicate Reported(m: Monitor, e: Event)
    requires IsClick(e)
  {
    && !m.closing && m.presses % 0x100 == DoneAfter(e).repeat
    && (m.clicks == AllOfThem || (m.clicks == FewOnly && !e.MultipleClick?))
  }

  lemma ClickInEvent(c: Config, m: Monitor, e: Event, click: Event)
    requires MonitorOk(m) && Watch(c, m, e).Some? && IsClick(click)
    ensures One(Reported(m, click)) + One(e == click) ==
              One(e == DoneAfter(click)) + One(Reported(Watch(c, m, e).value, click))
  {
  }

  lemma {:induction false} ClickInTick(c: Config, m: Monitor, events: seq<Event>, click: Event)
    requires MonitorOk(m) && WatchAll(c, m, events).Some? && IsClick(click)
    ensures One(Reported(m, click)) + Count(events, click) ==
              Count(events, DoneAfter(click)) + One(Reported(WatchAll(c, m, events).value, click))
    decreases |events|
  {
    if events != [] {
      var front := events[..|events| - 1];
      CountsInTick(c, m, front);
      ClickInTick(c, m, front, click);
      ClickInEvent(c, WatchAll(c, m, front).value, events[|events| - 1], click);
    }
  }

  /** Every end of clicks is preceded by exactly one report of each click that its number of presses calls for. */
  lemma {:induction false} ClicksAgree(c: Config, ticks: seq<seq<Event>>, click: Event)
    requires WatchTicks(c, ticks).Some? && IsClick(click)
    ensures CountTicks(ticks, click) ==
              CountTicks(ticks, DoneAfter(click)) + One(Reported(WatchTicks(c, ticks).value, click))
  {
    if ticks != [] {
      var front := ticks[..|ticks| - 1];
      CountsAgree(c, front);
      ClicksAgree(c, front, click);
      ClickInTick(c, NextTick(c, WatchTicks(c, front).value).value, ticks[|ticks| - 1], click);
    }
  }

  // ---- The same without an observer -----------------------------------------

  /** The presses since the last gesture has ended. */
  function Presses(ticks: seq<seq<Event>>): nat {
    if ticks == [] then 0
    else
      var out := ticks[|ticks| - 1];
      if PressEnd in out then 0 else Presses(ticks[..|ticks| - 1]) + Count(out, PressDown)
  }

  /** The button is held, and that has been reported as a long press. */
  function IsLong(ticks: seq<seq<Event>>): bool {
    if ticks == [] then false
    else
      var out := ticks[|ticks| - 1];
      LongPressStart in out || (PressUp !in out && IsLong(ticks[..|ticks| - 1]))
  }

  /** How long a press has to be held to become a long one. */
  function LongTime(c: Config): nat {
    if c.longTicks == 0 then 1 else c.longTicks
  }

  /**
    What a tick reports: before, level: the debounced level before and now; t:
    the ticks since the last edge; k: the presses of the gesture so far; long:
    whether the present press is a long one.
   */
  ghost predicate Told(c: Config, before: bool, level: bool, t: nat, k: nat, long: bool, out: seq<Event>) {
    var over := !level && !before && k > 0 && t == c.shortTicks + 1;
    && (PressRepeat in out <==> level && !before && k > 0)
    && (LongPressStart in out <==> level && before && k == 1 && !long && t == LongTime(c))
    && (LongPressUp in out <==> !level && before && long)
    && (PressEnd in out <==> over || (!level && before && (long || (k > 1 && t >= c.shortTicks))))
    && (forall n :: PressRepeatDone(n) in out <==> over && n == k % 0x100)
  }

  lemma {:induction false} CountIn(events: seq<Event>, e: Event)
    ensures Count(events, e) > 0 <==> e in events
  {
    if events != [] {
      CountIn(events[..|events| - 1], e);
      assert events == events[..|events| - 1] + [events[|events| - 1]];
    }
  }

  // ---- The machine ----------------------------------------------------------

  datatype State = PressDownCheck | PressUpCheck | PressRepeatDownCheck | PressRepeatUpCheck | LongPressUpCheck

  class Btn {
    const cfg: Config
    var ticks: nat
    var longPressHoldCnt: nat
    var repeat: nat
    var state: State
    var debounceCnt: nat
    var buttonLevel: bool
    var event: Event
    ghost var samples: seq<bool>
    ghost var trace: seq<seq<Event>>

    /** What the state of the machine and an observer of its events agree on; n is the tick counter before this tick. */
    ghost predicate AgreesBut(m: Monitor, n: int)
      reads this`state, this`ticks, this`repeat, this`longPressHoldCnt
    {
      && repeat < 0x100 && Quiet(m)
      && (state == PressDownCheck <==> m.presses == 0)
      && (m.pressed <==> state in {PressUpCheck, PressRepeatUpCheck, LongPressUpCheck})
      && (m.long <==> state == LongPressUpCheck)
      && m.holds == longPressHoldCnt && (!m.long ==> m.holds == 0)
      && (state != PressDownCheck ==> ticks == m.since)
      && (state in {PressUpCheck, LongPressUpCheck} ==> m.presses == 1)
      && (state == PressUpCheck ==> n == 0 || n < cfg.longTicks)
      && (state == LongPressUpCheck && cfg.serialTicks > 0 && cfg.longTicks > 0 ==> n < HoldTime(cfg, longPressHoldCnt))
      && (state == PressRepeatUpCheck ==> m.presses > 1)
      && (state == PressRepeatDownCheck ==> n <= cfg.shortTicks)
      && (state in {PressUpCheck, PressRepeatDownCheck, PressRepeatUpCheck} ==> repeat == m.presses % 0x100)
    }

    ghost predicate Agrees(m: Monitor)
      reads this`state, this`ticks, this`repeat, this`longPressHoldCnt
    {
      AgreesBut(m, ticks)
    }

    ghost predicate Valid()
      reads this
    {
      && 1 <= cfg.debounceTicks && |samples| == |trace|
      && Debounced(cfg.debounceTicks, samples) == (buttonLevel, debounceCnt)
      && var m := WatchTicks(cfg, trace);
         m.Some? && Agrees(m.value) && m.value.pressed == buttonLevel
         && m.value.since == SinceEdge(cfg.debounceTicks, samples)
         && m.value.presses == Presses(trace) && m.value.long == IsLong(trace)
    }

    /** iot_button_create */
    constructor (cfg: Config)
      requires 1 <= cfg.debounceTicks
      ensures Valid() && samples == [] && trace == [] && this.cfg == cfg
      ensures state == PressDownCheck && ticks == 0 && repeat == 0 && event == NonePress
    {
      this.cfg := cfg;
      ticks, longPressHoldCnt, repeat, debounceCnt := 0, 0, 0, 0;
      state, buttonLevel, event := PressDownCheck, false, NonePress;
      samples, trace := [], [];
    }

    /** s: the samples so far. The level flips exactly if the last samples all differ from it, as many as asked for. */
    method Debounce(sample: bool, ghost s: seq<bool>)
      requires 1 <= cfg.debounceTicks && Debounced(cfg.debounceTicks, s) == (buttonLevel, debounceCnt)
      modifies this`buttonLevel, this`debounceCnt
      ensures Debounced(cfg.debounceTicks, s + [sample]) == (buttonLevel, debounceCnt)
      ensures buttonLevel != old(buttonLevel) <==> AllDiffer(s + [sample], cfg.debounceTicks, old(buttonLevel))
    {
      NextSample(cfg.debounceTicks, s, sample);
      LevelFlipsExactly(cfg.debounceTicks, s, sample);
      if sample != buttonLevel {
        debounceCnt := debounceCnt + 1;
        if debounceCnt >= cfg.debounceTicks {
          buttonLevel := sample;
          debounceCnt := 0;
        }
      } else {
        debounceCnt := 0;
      }
    }

    /** Case PRESS_DOWN_CHECK. */
    method CheckDown(ghost m: Monitor) returns (out: seq<Event>)
      requires state == PressDownCheck && !m.pressed && m.presses == 0 && Quiet(m) && !m.long
               && m.holds == longPressHoldCnt == 0
      requires repeat < 0x100
      modifies this`event, this`ticks, this`repeat, this`state
      ensures WatchAll(cfg, m, out).Some? && Agrees(WatchAll(cfg, m, out).value)
      ensures Tracks(m, WatchAll(cfg, m, out).value, buttonLevel)
      ensures Ticked(cfg, m, WatchAll(cfg, m, out).value, buttonLevel, out)
      ensures EdgesOnly(out, false, buttonLevel)
      ensures event == if out == [] then NonePress else Last(out)
    {
      if buttonLevel {
        event := PressDown;
        out := [event];
        ticks, repeat, state := 0, 1, PressUpCheck;
        WatchOne(cfg, m, PressDown);
      } else {
        event := NonePress;
        out := [];
      }
    }

    /** Case PRESS_UP_CHECK. */
    method CheckUp(ghost m: Monitor) returns (out: seq<Event>)
      requires state == PressUpCheck && m.pressed && m.presses == 1 && Quiet(m) && !m.long
               && m.holds == longPressHoldCnt == 0
      requires ticks == m.since >= 1 && (ticks == 1 || ticks - 1 < cfg.longTicks) && repeat == 1
      modifies this`event, this`ticks, this`state
      ensures WatchAll(cfg, m, out).Some? && Agrees(WatchAll(cfg, m, out).value)
      ensures Tracks(m, WatchAll(cfg, m, out).value, buttonLevel)
      ensures Ticked(cfg, m, WatchAll(cfg, m, out).value, buttonLevel, out)
      ensures EdgesOnly(out, true, buttonLevel)
      ensures event == if out == [] then old(event) else Last(out)
    {
      out := [];
      if !buttonLevel {
        event := PressUp;
        out := [event];
        ticks, state := 0, PressRepeatDownCheck;
        WatchOne(cfg, m, PressUp);
      } else if ticks >= cfg.longTicks {
        event := LongPressStart;
        out := [event];
        state := LongPressUpCheck;
        WatchOne(cfg, m, LongPressStart);
      }
    }

    /** Case PRESS_REPEAT_DOWN_CHECK. */
    method CheckRepeatDown(ghost m: Monitor) returns (out: seq<Event>)
      requires state == PressRepeatDownCheck && !m.pressed && m.presses >= 1 && Quiet(m) && !m.long
               && m.holds == longPressHoldCnt == 0
      requires ticks == m.since <= cfg.shortTicks + 1 && repeat == m.presses % 0x100
      modifies this`event, this`ticks, this`repeat, this`state
      ensures WatchAll(cfg, m, out).Some? && Agrees(WatchAll(cfg, m, out).value)
      ensures Tracks(m, WatchAll(cfg, m, out).value, buttonLevel)
      ensures Ticked(cfg, m, WatchAll(cfg, m, out).value, buttonLevel, out)
      ensures EdgesOnly(out, false, buttonLevel)
      ensures state == PressDownCheck ==> repeat == 0
      ensures event == if out == [] then old(event) else Last(out)
    {
      out := [];
      if buttonLevel {
        out := PressAgain(m);
      } else if ticks > cfg.shortTicks {
        out := EndClicks(m);
      }
    }

    method PressAgain(ghost m: Monitor) returns (out: seq<Event>)
      requires state == PressRepeatDownCheck && !m.pressed && m.presses >= 1 && Quiet(m) && !m.long
               && m.holds == longPressHoldCnt == 0
      requires buttonLevel && repeat == m.presses % 0x100
      modifies this`event, this`ticks, this`repeat, this`state
      ensures WatchAll(cfg, m, out).Some? && Agrees(WatchAll(cfg, m, out).value)
      ensures Tracks(m, WatchAll(cfg, m, out).value, true)
      ensures Ticked(cfg, m, WatchAll(cfg, m, out).value, true, out)
      ensures EdgesOnly(out, false, true) && state != PressDownCheck
      ensures out != [] && event == Last(out)
    {
      event := PressDown;
      WatchOne(cfg, m, PressDown);
      out := [event];
      event := PressRepeat;
      repeat := (repeat + 1) % 0x100;
      WatchMore(cfg, m, out, PressRepeat);
      out := out + [event];
      ticks, state := 0, PressRepeatUpCheck;
    }

    method EndClicks(ghost m: Monitor) returns (out: seq<Event>)
      requires state == PressRepeatDownCheck && !m.pressed && m.presses >= 1 && Quiet(m) && !m.long
               && m.holds == longPressHoldCnt == 0
      requires !buttonLevel && m.since == cfg.shortTicks + 1 && repeat == m.presses % 0x100
      modifies this`event, this`repeat, this`state
      ensures WatchAll(cfg, m, out).Some? && Agrees(WatchAll(cfg, m, out).value)
      ensures Tracks(m, WatchAll(cfg, m, out).value, false)
      ensures Ticked(cfg, m, WatchAll(cfg, m, out).value, false, out)
      ensures EdgesOnly(out, false, false) && repeat == 0
      ensures out != [] && event == Last(out)
    {
      ghost var n := repeat;
      out := ReportClicks(m);
      ghost var clicks := out;
      event := PressRepeatDone(repeat);
      WatchMore(cfg, m, out, PressRepeatDone(repeat));
      out := out + [event];
      repeat, state := 0, PressDownCheck;
      event := PressEnd;
      WatchMore(cfg, m, out, PressEnd);
      out := out + [event];
      ClicksTicked(cfg, m, clicks, n, out);
    }

    method ReportClicks(ghost m: Monitor) returns (out: seq<Event>)
      requires ClickTime(cfg, m) && m.clicks == NoneYet && repeat == m.presses % 0x100
      modifies this`event
      ensures WatchAll(cfg, m, out) == Some(m.(clicks := AllOfThem))
      ensures Count(out, PressDown) == Count(out, PressUp) == 0
      ensures forall e | e in out :: IsClick(e)
    {
      out := [];
      if repeat == 1 {
        event := SingleClick;
        out := out + [event];
      } else if repeat == 2 {
        event := DoubleClick;
        out := out + [event];
      }
      event := MultipleClick(repeat);
      out := out + [event];
      ClicksAllowed(cfg, m, repeat);
      assert out == FewClicks(repeat) + [MultipleClick(repeat)];
    }

    /** Case PRESS_REPEAT_UP_CHECK. */
    method CheckRepeatUp(ghost m: Monitor) returns (out: seq<Event>)
      requires state == PressRepeatUpCheck && m.pressed && m.presses > 1 && Quiet(m) && !m.long
               && m.holds == longPressHoldCnt == 0
      requires ticks == m.since && repeat == m.presses % 0x100
      modifies this`event, this`ticks, this`state
      ensures WatchAll(cfg, m, out).Some? && Agrees(WatchAll(cfg, m, out).value)
      ensures Tracks(m, WatchAll(cfg, m, out).value, buttonLevel)
      ensures Ticked(cfg, m, WatchAll(cfg, m, out).value, buttonLevel, out)
      ensures EdgesOnly(out, true, buttonLevel)
      ensures event == if out == [] then old(event) else Last(out)
    {
      out := [];
      if !buttonLevel {
        event := PressUp;
        WatchOne(cfg, m, PressUp);
        out := [event];
        if ticks < cfg.shortTicks {
          ticks, state := 0, PressRepeatDownCheck;
        } else {
          state := PressDownCheck;
          event := PressEnd;
          WatchMore(cfg, m, out, PressEnd);
          out := out + [event];
        }
      }
    }

    /** Case PRESS_LONG_PRESS_UP_CHECK. */
    method CheckLongUp(ghost m: Monitor) returns (out: seq<Event>)
      requires state == LongPressUpCheck && m.pressed && m.presses == 1 && Quiet(m) && m.long
               && m.holds == longPressHoldCnt
      requires ticks == m.since && repeat < 0x100
      requires cfg.serialTicks > 0 && cfg.longTicks > 0 ==> ticks <= HoldTime(cfg, longPressHoldCnt)
      modifies this`event, this`longPressHoldCnt, this`state
      ensures WatchAll(cfg, m, out).Some? && Agrees(WatchAll(cfg, m, out).value)
      ensures Tracks(m, WatchAll(cfg, m, out).value, buttonLevel)
      ensures Ticked(cfg, m, WatchAll(cfg, m, out).value, buttonLevel, out)
      ensures EdgesOnly(out, true, buttonLevel)
      ensures event == if out == [] then old(event) else Last(out)
    {
      if buttonLevel {
        out := [];
        if ticks >= (longPressHoldCnt + 1) * cfg.serialTicks + cfg.longTicks {
          event := LongPressHold;
          WatchOne(cfg, m, LongPressHold);
          NextHold(cfg, longPressHoldCnt);
          longPressHoldCnt := longPressHoldCnt + 1;
          out := [event];
        }
      } else {
        out := EndLongPress(m);
      }
    }

    method EndLongPress(ghost m: Monitor) returns (out: seq<Event>)
      requires state == LongPressUpCheck && m.pressed && m.presses == 1 && Quiet(m) && m.long && !buttonLevel
      requires repeat < 0x100
      modifies this`event, this`longPressHoldCnt, this`state
      ensures WatchAll(cfg, m, out).Some? && Agrees(WatchAll(cfg, m, out).value)
      ensures Tracks(m, WatchAll(cfg, m, out).value, false)
      ensures Ticked(cfg, m, WatchAll(cfg, m, out).value, false, out)
      ensures EdgesOnly(out, true, false)
      ensures out != [] && event == Last(out)
    {
      event := LongPressUp;
      WatchOne(cfg, m, LongPressUp);
      out := [event];
      event := PressUp;
      WatchMore(cfg, m, out, PressUp);
      out := out + [event];
      state := PressDownCheck;
      longPressHoldCnt := 0;
      event := PressEnd;
      WatchMore(cfg, m, out, PressEnd);
      out := out + [event];
    }

    /** The state machine of button_handler. */
    method Step(ghost m: Monitor) returns (out: seq<Event>)
      requires m.since > 0 && (state != PressDownCheck ==> ticks > 0)
      requires AgreesBut(m, ticks - 1)
      modifies this`event, this`ticks, this`repeat, this`state, this`longPressHoldCnt
      ensures WatchAll(cfg, m, out).Some? && Agrees(WatchAll(cfg, m, out).value)
      ensures Tracks(m, WatchAll(cfg, m, out).value, buttonLevel)
      ensures Ticked(cfg, m, WatchAll(cfg, m, out).value, buttonLevel, out)
      ensures EdgesOnly(out, m.pressed, buttonLevel)
      ensures event == Current(out, old(event), old(state))
    {
      match state
      case PressDownCheck => out := CheckDown(m);
      case PressUpCheck => out := CheckUp(m);
      case PressRepeatDownCheck => out := CheckRepeatDown(m);
      case PressRepeatUpCheck => out := CheckRepeatUp(m);
      case LongPressUpCheck => out := CheckLongUp(m);
    }

    /** The tick counter, before the level is sampled. */
    method CountTick(ghost m: Monitor)
      requires m.since > 0 && Agrees(m.(since := m.since - 1))
      modifies this`ticks
      ensures AgreesBut(m, ticks - 1) && (state != PressDownCheck ==> ticks > 0)
      ensures ticks == old(ticks) + if state == PressDownCheck then 0 else 1
    {
      if state != PressDownCheck {
        ticks := ticks + 1;
      }
    }

    /** The tick is over; n: the observer after it. */
    ghost method Note(sample: bool, out: seq<Event>, m: Monitor, n: Monitor)
      requires 1 <= cfg.debounceTicks && |samples| == |trace| && WatchTicks(cfg, trace).Some?
      requires NextTick(cfg, WatchTicks(cfg, trace).value) == Some(m) && WatchAll(cfg, m, out) == Some(n) && Agrees(n)
      requires Debounced(cfg.debounceTicks, samples + [sample]) == (buttonLevel, debounceCnt)
      requires n.pressed == buttonLevel && n.since == SinceEdge(cfg.debounceTicks, samples + [sample])
      requires Ticked(cfg, m, n, buttonLevel, out) && Tracks(m, n, buttonLevel)
      requires EdgesOnly(out, m.pressed, buttonLevel)
      requires m.presses == Presses(trace) && m.long == IsLong(trace) && (m.long ==> m.pressed) && Quiet(m)
      modifies this`samples, this`trace
      ensures Valid() && samples == old(samples) + [sample] && trace == old(trace) + [out]
      ensures Told(cfg, m.pressed, buttonLevel, m.since, m.presses, m.long, out)
    {
      NextTrace(cfg, trace, out);
      NextTold(cfg, m, n, buttonLevel, trace, out);
      samples, trace := samples + [sample], trace + [out];
    }

    /** The first half of button_handler: the tick counter and the level. */
    method Sample(sample: bool, ghost m: Monitor)
      requires Valid() && NextTick(cfg, WatchTicks(cfg, trace).value) == Some(m)
      modifies this`ticks, this`buttonLevel, this`debounceCnt
      ensures m.since > 0 && (state != PressDownCheck ==> ticks > 0) && AgreesBut(m, ticks - 1)
      ensures Debounced(cfg.debounceTicks, samples + [sample]) == (buttonLevel, debounceCnt)
      ensures m.pressed == old(buttonLevel) && m.since == SinceEdge(cfg.debounceTicks, samples) + 1
      ensures m.presses == Presses(trace) && m.long == IsLong(trace) && (m.long ==> m.pressed) && Quiet(m)
      ensures SinceEdge(cfg.debounceTicks, samples + [sample]) == if buttonLevel != m.pressed then 0 else m.since
    {
      NextSample(cfg.debounceTicks, samples, sample);
      CountTick(m);
      Debounce(sample, samples);
    }

    /** button_handler: one tick. */
    method Handle(sample: bool) returns (out: seq<Event>)
      requires Valid()
      modifies this
      ensures Valid() && samples == old(samples) + [sample] && trace == old(trace) + [out]
      ensures EdgesOnly(out, old(buttonLevel), buttonLevel)
      ensures Told(cfg, old(buttonLevel), buttonLevel, SinceEdge(cfg.debounceTicks, old(samples)) + 1,
                   Presses(old(trace)), IsLong(old(trace)), out)
      ensures event == Current(out, old(event), old(state))
    {
      ghost var m := NextTick(cfg, WatchTicks(cfg, trace).value).value;
      Sample(sample, m);
      out := Step(m);
      Note(sample, out, m, WatchAll(cfg, m, out).value);
    }
  }

  lemma NextSample(d: nat, s: seq<bool>, x: bool)
    ensures var (level, cnt) := Debounced(d, s);
            Debounced(d, s + [x]) ==
              if x == level then (level, 0) else if cnt + 1 >= d then (x, 0) else (level, cnt + 1)
    ensures SinceEdge(d, s + [x]) == if Debounced(d, s + [x]).0 != Debounced(d, s).0 then 0 else SinceEdge(d, s) + 1
  {
    assert (s + [x])[..|s|] == s;
  }

  /** What the observer knows of the gesture is what the trace says. */
  lemma NextTold(c: Config, m: Monitor, n: Monitor, level: bool, ticks: seq<seq<Event>>, out: seq<Event>)
    requires Ticked(c, m, n, level, out) && Tracks(m, n, level) && EdgesOnly(out, m.pressed, level) && Quiet(m)
    requires m.presses == Presses(ticks) && m.long == IsLong(ticks) && (m.long ==> m.pressed)
    ensures n.presses == Presses(ticks + [out]) && n.long == IsLong(ticks + [out])
    ensures Told(c, m.pressed, level, m.since, m.presses, m.long, out)
  {
    assert (ticks + [out])[..|ticks|] == ticks;
    CountIn(out, PressUp);
  }

  lemma NextTrace(c: Config, ticks: seq<seq<Event>>, out: seq<Event>)
    requires WatchTicks(c, ticks).Some? && NextTick(c, WatchTicks(c, ticks).value).Some?
    ensures WatchTicks(c, ticks + [out]) == WatchAll(c, NextTick(c, WatchTicks(c, ticks).value).value, out)
  {
    assert (ticks + [out])[..|ticks|] == ticks;
  }

  /** The observer knows the level, and when it changed last. */
  predicate Tracks(m: Monitor, n: Monitor, level: bool) {
    n.pressed == level && n.since == if m.pressed != level then 0 else m.since
  }

  function Last(out: seq<Event>): Event
    requires out != []
  {
    out[|out| - 1]
  }

  /** The event that is shown until the next one: the last one reported; between gestures there is none. */
  function Current(out: seq<Event>, before: Event, state: State): Event {
    if out != [] then Last(out) else if state == PressDownCheck then NonePress else before
  }

  /** A click is over: the button has been up for one tick longer than a short press. */
  predicate ClicksOver(c: Config, m: Monitor, level: bool) {
    !level && ClickTime(c, m)
  }

  /** A release ends the gesture: that of a long press, or of a repeated press that was held. */
  predicate ReleaseEnds(c: Config, m: Monitor, level: bool) {
    !level && m.pressed && (m.long || (m.presses > 1 && m.since >= c.shortTicks))
  }

  /** What one tick reports, by what has been observed before, and what is observed then. */
  ghost predicate Ticked(c: Config, m: Monitor, n: Monitor, level: bool, out: seq<Event>) {
    && (PressRepeat in out <==> level && !m.pressed && m.presses > 0)
    && (LongPressStart in out <==> level && m.pressed && m.presses == 1 && !m.long && m.since == LongTime(c))
    && (LongPressUp in out <==> !level && m.pressed && m.long)
    && (PressEnd in out <==> ClicksOver(c, m, level) || ReleaseEnds(c, m, level))
    && (forall k :: PressRepeatDone(k) in out <==> ClicksOver(c, m, level) && k == m.presses % 0x100)
    && n.presses == (if PressEnd in out then 0 else m.presses + One(level && !m.pressed))
    && n.long == (n.pressed && (m.long || LongPressStart in out))
  }

  /** Press and release are reported at the edges of the debounced level and nowhere else. */
  predicate EdgesOnly(out: seq<Event>, before: bool, after: bool) {
    && Count(out, PressDown) == One(!before && after)
    && Count(out, PressUp) == One(before && !after)
  }

  lemma ClicksTicked(c: Config, m: Monitor, clicks: seq<Event>, k: nat, out: seq<Event>)
    requires ClickTime(c, m) && !m.long && k == m.presses % 0x100 && forall e | e in clicks :: IsClick(e)
    requires out == clicks + [PressRepeatDone(k)] + [PressEnd]
    ensures Ticked(c, m, QUIET.(since := m.since), false, out)
  {
    assert out[|clicks|] == PressRepeatDone(k) && out[|clicks| + 1] == PressEnd;
    assert forall e :: e in out <==> e in clicks || e == PressRepeatDone(k) || e == PressEnd;
  }

  lemma WatchOne(c: Config, m: Monitor, e: Event)
    ensures WatchAll(c, m, [e]) == Watch(c, m, e)
    ensures Count([e], PressDown) == One(e == PressDown) && Count([e], PressUp) == One(e == PressUp)
  {
    assert [e][..0] == [];
    assert WatchAll(c, m, []) == Some(m);
    assert Count([], PressDown) == 0 && Count([], PressUp) == 0;
  }

  lemma WatchMore(c: Config, m: Monitor, events: seq<Event>, e: Event)
    requires WatchAll(c, m, events).Some?
    ensures WatchAll(c, m, events + [e]) == Watch(c, WatchAll(c, m, events).value, e)
    ensures Count(events + [e], PressDown) == Count(events, PressDown) + One(e == PressDown)
    ensures Count(events + [e], PressUp) == Count(events, PressUp) + One(e == PressUp)
  {
    assert (events + [e])[..|events|] == events;
  }

  function FewClicks(n: nat): seq<Event> {
    if n == 1 then [SingleClick] else if n == 2 then [DoubleClick] else []
  }

  lemma ClicksAllowed(c: Config, m: Monitor, n: nat)
    requires ClickTime(c, m) && m.clicks == NoneYet && n == m.presses % 0x100
    ensures var out := FewClicks(n) + [MultipleClick(n)];
            && WatchAll(c, m, out) == Some(m.(clicks := AllOfThem))
            && Count(out, PressDown) == Count(out, PressUp) == 0
  {
    if n in {1, 2} {
      WatchOne(c, m, FewClicks(n)[0]);
    }
    WatchMore(c, m, FewClicks(n), MultipleClick(n));
  }

  /** The debounced level after the first n samples. */
  function Level(d: nat, s: seq<bool>, n: nat): bool
    requires n <= |s|
  {
    Debounced(d, s[..n]).0
  }

  /** Tick i, by the debounced levels and by what was reported before. */
  ghost predicate ToldAt(c: Config, samples: seq<bool>, trace: seq<seq<Event>>, i: nat)
    requires i < |samples| && i < |trace|
  {
    Told(c, Level(c.debounceTicks, samples, i), Level(c.debounceTicks, samples, i + 1),
         SinceEdge(c.debounceTicks, samples[..i]) + 1, Presses(trace[..i]), IsLong(trace[..i]), trace[i])
  }

  predicate EdgesReported(d: nat, samples: seq<bool>, trace: seq<seq<Event>>, i: nat)
    requires i < |samples| && i < |trace|
  {
    EdgesOnly(trace[i], Level(d, samples, i), Level(d, samples, i + 1))
  }

  /** After the first i samples. */
  ghost predicate Fed(btn: Btn, cfg: Config, samples: seq<bool>, trace: seq<seq<Event>>, i: nat)
    reads btn
  {
    && btn.Valid() && btn.cfg == cfg && btn.trace == trace && i <= |samples| && btn.samples == samples[..i]
    && |trace| == i
    && forall k | 0 <= k < i ::
         EdgesReported(cfg.debounceTicks, samples, trace, k) && ToldAt(cfg, samples, trace, k)
  }

  method FeedOne(btn: Btn, ghost cfg: Config, samples: seq<bool>, ghost trace: seq<seq<Event>>, i: nat)
    returns (out: seq<Event>)
    requires i < |samples| && Fed(btn, cfg, samples, trace, i)
    modifies btn
    ensures Fed(btn, cfg, samples, trace + [out], i + 1)
  {
    out := btn.Handle(samples[i]);
    assert samples[..i + 1] == samples[..i] + [samples[i]];
    ghost var later := trace + [out];
    assert later[..i] == trace;
    assert EdgesReported(cfg.debounceTicks, samples, later, i) && ToldAt(cfg, samples, later, i);
    forall k | 0 <= k < i
      ensures EdgesReported(cfg.debounceTicks, samples, later, k) && ToldAt(cfg, samples, later, k)
    {
      assert EdgesReported(cfg.debounceTicks, samples, trace, k) && ToldAt(cfg, samples, trace, k);
      assert later[..k] == trace[..k] && later[k] == trace[k];
    }
  }

  method Feed(btn: Btn, samples: seq<bool>) returns (trace: seq<seq<Event>>)
    requires btn.Valid() && btn.samples == [] && btn.trace == []
    modifies btn
    ensures Fed(btn, btn.cfg, samples, trace, |samples|)
  {
    trace := [];
    for i := 0 to |samples|
      invariant Fed(btn, btn.cfg, samples, trace, i)
    {
      var out := FeedOne(btn, btn.cfg, samples, trace, i);
      trace := trace + [out];
    }
  }

  /**
    Any sequence of samples: all events come when the observer allows them and
    none is late, edges of the level are reported as such, and once the button
    has been up for longer than a short press every gesture has ended exactly once.
   */
  method RunSamples(cfg: Config, samples: seq<bool>) returns (trace: seq<seq<Event>>)
    requires 1 <= cfg.debounceTicks
    ensures |trace| == |samples| && WatchTicks(cfg, trace).Some?
    ensures forall i | 0 <= i < |samples| :: EdgesReported(cfg.debounceTicks, samples, trace, i)
    ensures forall i | 0 <= i < |samples| :: ToldAt(cfg, samples, trace, i)
    ensures CountTicks(trace, PressDown) ==
            CountTicks(trace, PressUp) + One(Level(cfg.debounceTicks, samples, |samples|))
    ensures var open := CountTicks(trace, PressDown) - CountTicks(trace, PressRepeat) - CountTicks(trace, PressEnd);
            var level := Level(cfg.debounceTicks, samples, |samples|);
            && open in {0, 1} && (level ==> open == 1)
            && (!level && SinceEdge(cfg.debounceTicks, samples) > cfg.shortTicks ==> open == 0)
    ensures CountTicks(trace, SingleClick) == CountTicks(trace, PressRepeatDone(1))
    ensures CountTicks(trace, DoubleClick) == CountTicks(trace, PressRepeatDone(2))
    ensures forall n: nat :: CountTicks(trace, MultipleClick(n)) == CountTicks(trace, PressRepeatDone(n))
  {
    var btn := new Btn(cfg);
    trace := Feed(btn, samples);
    assert samples[..|samples|] == samples;
    CountsAgree(cfg, trace);
    ClicksAgree(cfg, trace, SingleClick);
    ClicksAgree(cfg, trace, DoubleClick);
    forall n: nat
      ensures CountTicks(trace, MultipleClick(n)) == CountTicks(trace, PressRepeatDone(n))
    {
      ClicksAgree(cfg, trace, MultipleClick(n));
    }
  }
}
