/** When a schedule fires: `computeScheduleNextRun` and the helpers it calls.

    A time is a count of nanoseconds since a Monday midnight of the schedule's zone, whose offset is
    fixed. Go's zero time, which stands for "never ran" and for "no next run", is `None`. */
module Recurrence {

  import opened Sequences
  import Text

  type Time = int

  // Nanoseconds in a day and a week.
  const DAY: int := 86_400_000_000_000
  const WEEK: int := 604_800_000_000_000

  predicate IsTick(t: Time) {
    t % 60_000_000_000 == 0
  }

  /** A possibly zero time seen from another zone. */
  function Shifted(t: Option<Time>, shift: int): Option<Time> {
    if t.Some? then Some(t.value + shift) else None
  }

  /** The number of the day of `t`; day 0 is a Monday. */
  function DayOf(t: Time): int {
    t / 86_400_000_000_000
  }

  function DayStart(t: Time): Time {
    DayOf(t) * 86_400_000_000_000
  }

  /** Go's numbering: Sunday is 0. */
  function Weekday(t: Time): (w: int)
    ensures 0 <= w < 7
  {
    (DayOf(t) + 1) % 7
  }

  predicate SameDay(a: Time, b: Time) {
    DayOf(a) == DayOf(b)
  }

  /** Two instants lie in the same ISO 8601 week exactly when their weeks start on the same Monday. */
  predicate SameWeek(a: Time, b: Time) {
    DayOf(a) / 7 == DayOf(b) / 7
  }

  /** A configuration field: left blank, present but malformed, or parsed. */
  datatype Field<+T> = Blank | Malformed | Given(value: T)

  /** A parsed "HH:MM". The parser accepts any two integers, so nothing bounds them. */
  datatype Clock = Clock(hour: int, minute: int)

  /** A cron expression: the minutes it matches, and how many minutes ahead its library looks before
      it gives up and answers with the zero time. */
  datatype CronTable = CronTable(matches: int -> bool, horizon: nat)

  datatype Config = Config(interval: Field<int>, at: Field<Clock>, weekday: string, day: int, cron: Field<CronTable>)

  datatype Strategy = Unset | Immediate | Daily | Weekly | Custom | Unknown

  datatype Error = StrategyRequired | BadInterval | BadTime | WeekdayRequired | CronRequired | BadCron | UnknownStrategy

  datatype Decision = Skipped(error: Error) | Decided(next: Option<Time>, due: bool)

  /** `time.Date` normalises an hour or minute out of range into the neighbouring days. */
  function Offset(clock: Clock): int {
    clock.hour * 3_600_000_000_000 + clock.minute * 60_000_000_000
  }

  function ClockOf(at: Field<Clock>): Option<Clock> {
    match at
    case Blank => Some(Clock(0, 0))
    case Malformed => None
    case Given(clock) => Some(clock)
  }

  function ScheduleAtTime(now: Time, clock: Clock): Time {
    DayStart(now) + Offset(clock)
  }

  function ScheduleAtWeekday(now: Time, weekday: int, clock: Clock): Time {
    var diff := weekday - Weekday(now);
    DayStart(now) + (if diff < 0 then diff + 7 else diff) * 86_400_000_000_000 + Offset(clock)
  }

  function ResolveWeekday(value: string, day: int): (w: Option<int>)
    ensures w.Some? ==> 0 <= w.value < 7
  {
    NamedWeekday(Text.TrimSpace(Text.LowerAll(value)), day)
  }

  function NamedWeekday(value: string, day: int): (w: Option<int>)
    ensures w.Some? ==> 0 <= w.value < 7
  {
    if value == "mon" || value == "monday" then Some(1)
    else if value == "tue" || value == "tues" || value == "tuesday" then Some(2)
    else if value == "wed" || value == "wednesday" then Some(3)
    else if value == "thu" || value == "thurs" || value == "thursday" then Some(4)
    else if value == "fri" || value == "friday" then Some(5)
    else if value == "sat" || value == "saturday" then Some(6)
    else if value == "sun" || value == "sunday" then Some(0)
    else if 1 <= day <= 7 then Some(day % 7)
    else None
  }

  const DAYS: seq<string> := ["sunday", "monday", "tuesday", "wednesday", "thursday", "friday", "saturday"]

  /** The ways to write a day: in full, by its first three letters, or as "tues" and "thurs". */
  predicate IsNameOf(value: string, d: int)
    requires 0 <= d < 7
  {
    value == DAYS[d] || value == DAYS[d][..3] || (value == "tues" && d == 2) || (value == "thurs" && d == 4)
  }

  lemma ShortNames()
    ensures DAYS[0][..3] == "sun" && DAYS[1][..3] == "mon" && DAYS[2][..3] == "tue" && DAYS[3][..3] == "wed"
    ensures DAYS[4][..3] == "thu" && DAYS[5][..3] == "fri" && DAYS[6][..3] == "sat"
  {
  }

  lemma NameMeansDay(value: string, day: int, d: int)
    requires 0 <= d < 7 && IsNameOf(value, d)
    ensures NamedWeekday(value, day) == Some(d)
  {
    ShortNames();
    assert d == 0 || d == 1 || d == 2 || d == 3 || d == 4 || d == 5 || d == 6;
  }

  lemma NamedOrNot(value: string, day: int)
    ensures forall d | 0 <= d < 7 && IsNameOf(value, d) :: NamedWeekday(value, day) == Some(d)
    ensures (forall d | 0 <= d < 7 :: !IsNameOf(value, d)) ==>
            NamedWeekday(value, day) == if 1 <= day <= 6 then Some(day) else if day == 7 then Some(0) else None
  {
    forall d | 0 <= d < 7 && IsNameOf(value, d)
      ensures NamedWeekday(value, day) == Some(d)
    {
      NameMeansDay(value, day, d);
    }
    ShortNames();
    var named := NamedWeekday(value, 0);
    assert named.Some? ==> IsNameOf(value, named.value);
  }

  /** The value spells a name of the day, in any case and with any white space around it. */
  ghost predicate NamesDay(value: string, d: int) {
    0 <= d < 7 && exists name :: IsNameOf(name, d) && Text.Spells(value, name)
  }

  lemma NamesAreLetters(name: string, d: int)
    requires 0 <= d < 7 && IsNameOf(name, d)
    ensures name != "" && forall i :: 0 <= i < |name| ==> 'a' <= name[i] <= 'z'
  {
    assert d == 0 || d == 1 || d == 2 || d == 3 || d == 4 || d == 5 || d == 6;
  }

  lemma SpellingNames(value: string, d: int)
    requires 0 <= d < 7
    ensures NamesDay(value, d) <==> IsNameOf(Text.TrimSpace(Text.LowerAll(value)), d)
  {
    Text.TrimmedSpells(value);
    if NamesDay(value, d) {
      var name :| IsNameOf(name, d) && Text.Spells(value, name);
      NamesAreLetters(name, d);
      Text.SpellsTrims(value, name);
    }
  }

  /** A value that spells a name means its day, whatever the number; without a name the number counts from Monday, 7
      being Sunday. */
  lemma WeekdayMeaning(value: string, day: int)
    ensures forall d | NamesDay(value, d) :: ResolveWeekday(value, day) == Some(d)
    ensures (forall d :: !NamesDay(value, d)) ==>
            ResolveWeekday(value, day) == if 1 <= day <= 6 then Some(day) else if day == 7 then Some(0) else None
  {
    NamedOrNot(Text.TrimSpace(Text.LowerAll(value)), day);
    forall d | 0 <= d < 7
      ensures NamesDay(value, d) <==> IsNameOf(Text.TrimSpace(Text.LowerAll(value)), d)
    {
      SpellingNames(value, d);
    }
  }

  /** The first matching minute after `minute`, if there is one within `fuel` minutes. */
  function NextMatch(matches: int -> bool, minute: int, fuel: nat): (m: Option<int>)
    ensures m.Some? ==> minute < m.value <= minute + fuel && matches(m.value)
    ensures forall k :: minute < k <= minute + fuel && (m.Some? ==> k < m.value) ==> !matches(k)
    decreases fuel
  {
    if fuel == 0 then None
    else if matches(minute + 1) then Some(minute + 1)
    else NextMatch(matches, minute + 1, fuel - 1)
  }

  /** The cron library's `Next`: strictly after `t`, on a whole minute. */
  function CronLibraryNext(table: CronTable, t: Time): Option<Time> {
    match NextMatch(table.matches, t / 60_000_000_000, table.horizon)
    case None => None
    case Some(m) => Some(m * 60_000_000_000)
  }

  /** A zero time is not after `now`, so "no match in sight" counts as due. */
  function CronNext(table: CronTable, now: Time): Decision {
    var next := CronLibraryNext(table, now - 60_000_000_000);
    if next.None? || next.value <= now then Decided(CronLibraryNext(table, now), true)
    else Decided(next, false)
  }

  function DailyNext(clock: Option<Clock>, now: Time, lastRun: Option<Time>): Decision {
    if clock.None? then Skipped(BadTime) else
    var scheduled := ScheduleAtTime(now, clock.value);
    if now < scheduled then Decided(Some(scheduled), false)
    else Decided(Some(scheduled + DAY), !(lastRun.Some? && SameDay(lastRun.value, now)))
  }

  function WeeklyNext(weekday: int, clock: Option<Clock>, now: Time, lastRun: Option<Time>): Decision {
    if clock.None? then Skipped(BadTime) else
    var scheduled := ScheduleAtWeekday(now, weekday, clock.value);
    if now < scheduled then Decided(Some(scheduled), false)
    else Decided(Some(scheduled + WEEK), !(lastRun.Some? && SameWeek(lastRun.value, now)))
  }

  function ComputeScheduleNextRun(strategy: Strategy, cfg: Config, now: Time, lastRun: Option<Time>): Decision {
    if strategy.Unset? then Skipped(StrategyRequired)
    else if strategy.Immediate? then Decided(None, lastRun.None?)
    else if cfg.interval.Malformed? then Skipped(BadInterval)
    else if cfg.interval.Given? then
      if lastRun.None? || now - lastRun.value >= cfg.interval.value
      then Decided(Some(now + cfg.interval.value), true)
      else Decided(Some(lastRun.value + cfg.interval.value), false)
    else match strategy
      case Daily => DailyNext(ClockOf(cfg.at), now, lastRun)
      case Weekly =>
        var weekday := ResolveWeekday(cfg.weekday, cfg.day);
        if weekday.None? then Skipped(WeekdayRequired) else WeeklyNext(weekday.value, ClockOf(cfg.at), now, lastRun)
      case Custom =>
        (match cfg.cron
         case Blank => Skipped(CronRequired)
         case Malformed => Skipped(BadCron)
         case Given(table) => CronNext(table, now))
      case _ => Skipped(UnknownStrategy)
  }

  /** A schedule that its owner no longer edits. */
  datatype Rule = Rule(strategy: Strategy, cfg: Config) {
    function Decide(now: Time, lastRun: Option<Time>): Decision {
      ComputeScheduleNextRun(strategy, cfg, now, lastRun)
    }

    predicate Due(now: Time, lastRun: Option<Time>) {
      Decide(now, lastRun).Decided? && Decide(now, lastRun).due
    }
  }

  // ---------------------------------------------------------------- calendar arithmetic

  /** What is left of a daily or weekly rule once its fields are parsed. */
  datatype Plan = Plan(weekly: bool, weekday: int, offset: int) {
    predicate Valid() {
      0 <= weekday < 7 && IsTick(offset)
    }

    /** The first day from `t`'s day on that the plan names. */
    function OpenDay(t: Time): int {
      if !weekly then DayOf(t) else
      var diff := weekday - Weekday(t);
      DayOf(t) + if diff < 0 then diff + 7 else diff
    }

    function Opening(t: Time): Time {
      OpenDay(t) * 86_400_000_000_000 + offset
    }

    /** The day of a daily plan, the ISO week of a weekly one. */
    function Slot(t: Time): int {
      if weekly then DayOf(t) / 7 else DayOf(t)
    }

    predicate Open(t: Time) {
      Opening(t) <= t
    }

    predicate Due(t: Time, lastRun: Option<Time>) {
      Open(t) && !(lastRun.Some? && Slot(lastRun.value) == Slot(t))
    }

    function Next(t: Time): Time {
      if Open(t) then Opening(t) + Days() * 86_400_000_000_000 else Opening(t)
    }

    function Days(): int {
      if weekly then 7 else 1
    }

    /** How far before midnight the clock may reach without leaving the slot of its day. */
    function EarliestOffset(): int {
      if weekly then -((weekday + 6) % 7) * 86_400_000_000_000 else 0
    }

    predicate WellTimed() {
      EarliestOffset() <= offset < 86_400_000_000_000
    }
  }

  /** The open day is the only one of the seven from `t` on that has the plan's weekday. */
  lemma OpenDayOfWeek(p: Plan, t: Time)
    requires p.Valid() && p.weekly
    ensures DayOf(t) <= p.OpenDay(t) < DayOf(t) + 7 && (p.OpenDay(t) + 1) % 7 == p.weekday
  {
    var d, diff := DayOf(t), p.weekday - Weekday(t);
    WeekdayAhead(d, p.weekday);
  }

  lemma WeekdayAhead(d: int, w: int)
    requires 0 <= w < 7
    ensures var diff := w - (d + 1) % 7; (d + (if diff < 0 then diff + 7 else diff) + 1) % 7 == w
  {
  }

  lemma SameWeekday(x: int, y: int)
    requires (x + 1) % 7 == (y + 1) % 7 && -7 < x - y < 7
    ensures x == y
  {
  }

  lemma WeekLater(x: int)
    ensures (x + 7 + 1) % 7 == (x + 1) % 7
  {
  }

  /** Up to and including its open day a plan points at that day; afterwards at the next one. */
  lemma OpeningAhead(p: Plan, now: Time, t: Time)
    requires p.Valid() && now <= t
    ensures DayOf(t) <= p.OpenDay(now) ==> p.Opening(t) == p.Opening(now)
    ensures p.OpenDay(now) < DayOf(t) <= p.OpenDay(now) + p.Days() ==>
            p.Opening(t) == p.Opening(now) + p.Days() * 86_400_000_000_000
  {
    DaysInOrder(now, t);
    if p.weekly {
      OpenDayOfWeek(p, now);
      OpenDayOfWeek(p, t);
      WeekLater(p.OpenDay(now));
      if DayOf(t) <= p.OpenDay(now) {
        SameWeekday(p.OpenDay(t), p.OpenDay(now));
      } else if DayOf(t) <= p.OpenDay(now) + 7 {
        SameWeekday(p.OpenDay(t), p.OpenDay(now) + 7);
      }
    }
  }

  lemma DaysInOrder(now: Time, t: Time)
    requires now <= t
    ensures DayOf(now) <= DayOf(t)
  {
  }

  /** The day of an opening: the open day, or one before it in the same week. */
  lemma OpeningDay(p: Plan, now: Time)
    requires p.Valid() && p.WellTimed()
    ensures p.OpenDay(now) - (if p.weekly then (p.weekday + 6) % 7 else 0) <= DayOf(p.Opening(now)) <= p.OpenDay(now)
  {
  }

  lemma WithinWeek(x: int, day: int, weekday: int)
    requires 0 <= weekday < 7 && (day + 1) % 7 == weekday && day - (weekday + 6) % 7 <= x <= day
    ensures x / 7 == day / 7
  {
    assert (weekday + 6) % 7 == day % 7;
  }

  /** An opening lies in the slot of its open day, and so does everything from it to the end of that day. */
  lemma OpeningSlot(p: Plan, now: Time)
    requires p.Valid() && p.WellTimed()
    ensures DayOf(p.Opening(now)) <= p.OpenDay(now)
    ensures forall t :: p.Opening(now) <= t && DayOf(t) <= p.OpenDay(now) ==> p.Slot(t) == p.Slot(p.Opening(now))
  {
    OpeningDay(p, now);
    forall t | p.Opening(now) <= t && DayOf(t) <= p.OpenDay(now)
      ensures p.Slot(t) == p.Slot(p.Opening(now))
    {
      DaysInOrder(p.Opening(now), t);
      if p.weekly {
        OpenDayOfWeek(p, now);
        WithinWeek(DayOf(t), p.OpenDay(now), p.weekday);
        WithinWeek(DayOf(p.Opening(now)), p.OpenDay(now), p.weekday);
      }
    }
  }

  /** A run that fires writes its own time into `last_run_at`. */
  function LastRunAfter(due: bool, now: Time, lastRun: Option<Time>): Option<Time> {
    if due then Some(now) else lastRun
  }

  /** The next opening is a later tick, the plan fires at it, and at no tick in between. */
  ghost predicate PlanNextIsFirst(p: Plan, now: Time, lastRun: Option<Time>) {
    var later := LastRunAfter(p.Due(now, lastRun), now, lastRun);
    && now < p.Next(now) && IsTick(p.Next(now)) && p.Due(p.Next(now), later)
    && forall t :: now < t < p.Next(now) && IsTick(t) ==> !p.Due(t, later)
  }

  lemma TickOfDay(day: int, offset: int)
    requires IsTick(offset)
    ensures IsTick(day * 86_400_000_000_000 + offset)
  {
    assert day * 86_400_000_000_000 == (day * 1440) * 60_000_000_000;
  }

  lemma OpeningIsTick(p: Plan, t: Time)
    requires p.Valid()
    ensures IsTick(p.Opening(t))
  {
    TickOfDay(p.OpenDay(t), p.offset);
  }

  lemma QuietBeforeOpening(p: Plan, now: Time, lastRun: Option<Time>)
    requires p.Valid() && p.WellTimed() && now < p.Opening(now)
    ensures forall t :: now < t < p.Opening(now) ==> !p.Due(t, lastRun)
    ensures p.Open(p.Opening(now))
  {
    OpeningSlot(p, now);
    forall t | now < t <= p.Opening(now)
      ensures p.Opening(t) == p.Opening(now)
    {
      assert DayOf(t) <= DayOf(p.Opening(now));
      OpeningAhead(p, now, t);
    }
  }

  lemma QuietUntilNextOpening(p: Plan, now: Time, lastRun: Option<Time>)
    requires p.Valid() && p.WellTimed() && p.Open(now)
    requires lastRun.Some? && p.Slot(lastRun.value) == p.Slot(now)
    ensures now < p.Next(now) && p.Due(p.Next(now), lastRun)
    ensures forall t :: now < t < p.Next(now) ==> !p.Due(t, lastRun)
  {
    var n := p.Next(now);
    OpeningSlot(p, now);
    assert p.Slot(now) == p.Slot(p.Opening(now));
    forall t | now < t <= n
      ensures p.Opening(t) == n || p.Slot(t) == p.Slot(now)
    {
      assert DayOf(t) <= DayOf(n);
      OpeningAhead(p, now, t);
    }
    OpeningAhead(p, now, n);
  }

  lemma NextIsTick(p: Plan, now: Time)
    requires p.Valid() && p.Open(now)
    ensures IsTick(p.Next(now))
  {
    TickOfDay(p.OpenDay(now) + p.Days(), p.offset);
  }

  /** At a sensible hour the announced next run is right in every case but one: the rule already ran in the
      slot that is still to open, which only an edit of its clock can cause. */
  lemma PlanNextAfterEdit(p: Plan, now: Time, lastRun: Option<Time>)
    requires p.Valid() && p.WellTimed() && (lastRun.Some? ==> lastRun.value <= now)
    ensures PlanNextIsFirst(p, now, lastRun) <==>
            !(now < p.Opening(now) && lastRun.Some? && p.Slot(lastRun.value) == p.Slot(p.Opening(now)))
  {
    OpeningIsTick(p, now);
    if p.Open(now) {
      NextIsTick(p, now);
      QuietUntilNextOpening(p, now, LastRunAfter(p.Due(now, lastRun), now, lastRun));
    } else {
      QuietBeforeOpening(p, now, lastRun);
    }
  }

  lemma PlanNextAfterFiring(p: Plan, now: Time, lastRun: Option<Time>)
    requires p.Valid() && p.WellTimed()
    requires lastRun.Some? ==> lastRun.value <= now && p.Open(lastRun.value)
    ensures PlanNextIsFirst(p, now, lastRun)
  {
    if lastRun.Some? {
      OpeningSlot(p, now);
      OpeningSlot(p, lastRun.value);
      OpeningAhead(p, lastRun.value, now);
    }
    PlanNextAfterEdit(p, now, lastRun);
  }

  /** Every other clock is announced wrongly at some tick of a rule that never ran. */
  lemma PlanMistimed(p: Plan) returns (now: Time)
    requires p.Valid() && !p.WellTimed()
    ensures IsTick(now) && !PlanNextIsFirst(p, now, None)
  {
    if p.offset >= 86_400_000_000_000 {
      now := 0;
      assert !p.Open(p.Next(now));
    } else if !p.weekly {
      now := 86_340_000_000_000;
      assert p.Next(now) <= now;
    } else if p.Opening(0) + 604_800_000_000_000 <= 0 {
      now := 0;
    } else {
      now := -60_000_000_000;
      TooEarlyInWeek(p);
    }
  }

  /** A weekly clock that reaches back into the week before is wrong in that week's last minute. */
  lemma TooEarlyInWeek(p: Plan)
    requires p.Valid() && p.weekly && p.offset < p.EarliestOffset() && p.Opening(0) + 604_800_000_000_000 > 0
    ensures !PlanNextIsFirst(p, -60_000_000_000, None)
  {
    var now := -60_000_000_000;
    assert p.Opening(0) < 0 && DayOf(now) == -1;
    assert p.Slot(now) == -1 && p.Slot(0) == 0;
    if now < p.Next(now) {
      assert p.Due(0, Some(now));
    }
  }

  // ---------------------------------------------------------------- the announced next run

  predicate Calendar(r: Rule) {
    && r.cfg.interval.Blank? && (r.strategy.Daily? || r.strategy.Weekly?) && ClockOf(r.cfg.at).Some?
    && (r.strategy.Weekly? ==> ResolveWeekday(r.cfg.weekday, r.cfg.day).Some?)
  }

  predicate Periodic(r: Rule) {
    r.cfg.interval.Given? && !r.strategy.Unset? && !r.strategy.Immediate?
  }

  predicate Cron(r: Rule) {
    r.cfg.interval.Blank? && r.strategy.Custom? && r.cfg.cron.Given?
  }

  function PlanOf(r: Rule): (p: Plan)
    requires Calendar(r)
    ensures p.Valid()
  {
    var clock := ClockOf(r.cfg.at).value;
    assert Offset(clock) == (clock.hour * 60 + clock.minute) * 60_000_000_000;
    Plan(r.strategy.Weekly?, if r.strategy.Weekly? then ResolveWeekday(r.cfg.weekday, r.cfg.day).value else 0, Offset(clock))
  }

  lemma CalendarDecision(r: Rule, now: Time, lastRun: Option<Time>)
    requires Calendar(r)
    ensures r.Decide(now, lastRun) == Decided(Some(PlanOf(r).Next(now)), PlanOf(r).Due(now, lastRun))
  {
    var clock := ClockOf(r.cfg.at);
    if r.strategy.Weekly? {
      WeeklyDecision(ResolveWeekday(r.cfg.weekday, r.cfg.day).value, clock.value, now, lastRun);
    } else {
      DailyDecision(clock.value, now, lastRun);
    }
  }

  lemma WeeklyDecision(weekday: int, clock: Clock, now: Time, lastRun: Option<Time>)
    ensures var p := Plan(true, weekday, Offset(clock));
      WeeklyNext(weekday, Some(clock), now, lastRun) == Decided(Some(p.Next(now)), p.Due(now, lastRun))
  {
  }

  lemma DailyDecision(clock: Clock, now: Time, lastRun: Option<Time>)
    ensures var p := Plan(false, 0, Offset(clock));
      DailyNext(Some(clock), now, lastRun) == Decided(Some(p.Next(now)), p.Due(now, lastRun))
  {
  }

  /** The announced next run is a tick after `now`, the rule fires at it, and at no tick in between. */
  ghost predicate NextIsFirst(r: Rule, now: Time, lastRun: Option<Time>) {
    var d := r.Decide(now, lastRun);
    && d.Decided? && d.next.Some? && now < d.next.value && IsTick(d.next.value)
    && r.Due(d.next.value, LastRunAfter(r.Due(now, lastRun), now, lastRun))
    && forall t :: now < t < d.next.value && IsTick(t) ==> !r.Due(t, LastRunAfter(r.Due(now, lastRun), now, lastRun))
  }

  /** `lastRun` is what an earlier firing of this very rule left behind. */
  ghost predicate LeftByRule(r: Rule, now: Time, lastRun: Option<Time>) {
    lastRun.Some? ==> lastRun.value < now && exists before :: r.Due(lastRun.value, before)
  }

  /** What the owner could check when saving the rule: a positive interval of whole minutes, a clock that
      stays within its day (or within the week of its day), a cron table that never runs dry. */
  ghost predicate WellTimed(r: Rule)
    requires Calendar(r) || Periodic(r) || Cron(r)
  {
    if r.cfg.interval.Given? then r.cfg.interval.value > 0 && IsTick(r.cfg.interval.value)
    else if r.strategy.Custom? then
      forall k :: NextMatch(r.cfg.cron.value.matches, k, r.cfg.cron.value.horizon).Some?
    else PlanOf(r).WellTimed()
  }

  lemma CalendarNextIsFirst(r: Rule, now: Time, lastRun: Option<Time>)
    requires Calendar(r)
    ensures NextIsFirst(r, now, lastRun) <==> PlanNextIsFirst(PlanOf(r), now, lastRun)
  {
    CalendarDecision(r, now, lastRun);
    var later := LastRunAfter(r.Due(now, lastRun), now, lastRun);
    forall t
      ensures r.Due(t, later) <==> PlanOf(r).Due(t, later)
    {
      CalendarDecision(r, t, later);
    }
  }

  /** A cron rule fires at a tick when its minute matches, or when the library sees no match ahead at all. */
  lemma CronDue(r: Rule, t: Time, lastRun: Option<Time>)
    requires Cron(r) && IsTick(t)
    ensures var table := r.cfg.cron.value;
      r.Due(t, lastRun) <==>
      NextMatch(table.matches, t / 60_000_000_000 - 1, table.horizon).None? ||
      (table.horizon > 0 && table.matches(t / 60_000_000_000))
  {
    var table, k := r.cfg.cron.value, t / 60_000_000_000;
    assert (t - 60_000_000_000) / 60_000_000_000 == k - 1;
    if table.horizon > 0 {
      assert table.matches(k) ==> NextMatch(table.matches, k - 1, table.horizon) == Some(k);
    }
  }

  lemma CronNextIsFirst(r: Rule, now: Time, lastRun: Option<Time>)
    requires Cron(r) && IsTick(now)
    requires var table := r.cfg.cron.value;
      && NextMatch(table.matches, now / 60_000_000_000 - 1, table.horizon).Some?
      && NextMatch(table.matches, now / 60_000_000_000, table.horizon).Some?
    ensures NextIsFirst(r, now, lastRun)
  {
    var table, k := r.cfg.cron.value, now / 60_000_000_000;
    var m := NextMatch(table.matches, k, table.horizon).value;
    CronAnnounces(r, now, lastRun);
    var later := LastRunAfter(r.Due(now, lastRun), now, lastRun);
    MinuteOf(m);
    CronDue(r, m * 60_000_000_000, later);
    forall t | now < t < m * 60_000_000_000 && IsTick(t)
      ensures !r.Due(t, later)
    {
      CronDue(r, t, later);
      MinutesBetween(now, t, m);
      assert !table.matches(t / 60_000_000_000);
    }
  }

  lemma MinuteOf(m: int)
    ensures m * 60_000_000_000 / 60_000_000_000 == m && IsTick(m * 60_000_000_000)
  {
  }

  lemma MinutesBetween(now: Time, t: Time, m: int)
    requires IsTick(now) && IsTick(t) && now < t < m * 60_000_000_000
    ensures now / 60_000_000_000 < t / 60_000_000_000 < m
  {
  }

  lemma CronAnnounces(r: Rule, now: Time, lastRun: Option<Time>)
    requires Cron(r) && IsTick(now)
    requires var table := r.cfg.cron.value;
      && NextMatch(table.matches, now / 60_000_000_000 - 1, table.horizon).Some?
      && NextMatch(table.matches, now / 60_000_000_000, table.horizon).Some?
    ensures var next := NextMatch(r.cfg.cron.value.matches, now / 60_000_000_000, r.cfg.cron.value.horizon).value * 60_000_000_000;
      r.Decide(now, lastRun).Decided? && r.Decide(now, lastRun).next == Some(next) && now < next
  {
    CronNextAnnounces(r.cfg.cron.value, now);
  }

  lemma CronNextAnnounces(table: CronTable, now: Time)
    requires IsTick(now)
    requires NextMatch(table.matches, now / 60_000_000_000 - 1, table.horizon).Some?
    requires NextMatch(table.matches, now / 60_000_000_000, table.horizon).Some?
    ensures var next := NextMatch(table.matches, now / 60_000_000_000, table.horizon).value * 60_000_000_000;
      CronNext(table, now).Decided? && CronNext(table, now).next == Some(next) && now < next
  {
    assert (now - 60_000_000_000) / 60_000_000_000 == now / 60_000_000_000 - 1;
  }

  lemma NextRunWhenWellTimed(r: Rule, now: Time, lastRun: Option<Time>)
    requires Calendar(r) || Periodic(r) || Cron(r)
    requires WellTimed(r) && IsTick(now) && LeftByRule(r, now, lastRun)
    requires lastRun.Some? ==> IsTick(lastRun.value)
    ensures NextIsFirst(r, now, lastRun)
  {
    if Calendar(r) {
      if lastRun.Some? {
        var before :| r.Due(lastRun.value, before);
        CalendarDecision(r, lastRun.value, before);
      }
      PlanNextAfterFiring(PlanOf(r), now, lastRun);
      CalendarNextIsFirst(r, now, lastRun);
    } else if Cron(r) {
      CronNextIsFirst(r, now, lastRun);
    } else {
      PeriodicNextIsFirst(r, now, lastRun);
    }
  }

  lemma PeriodicNextIsFirst(r: Rule, now: Time, lastRun: Option<Time>)
    requires Periodic(r) && WellTimed(r) && IsTick(now)
    requires lastRun.Some? ==> lastRun.value < now && IsTick(lastRun.value)
    ensures NextIsFirst(r, now, lastRun)
  {
  }

  lemma NextRunWhenMistimed(r: Rule) returns (now: Time)
    requires Calendar(r) || Periodic(r) || Cron(r)
    requires !WellTimed(r)
    ensures IsTick(now) && !NextIsFirst(r, now, None)
  {
    if Calendar(r) {
      now := PlanMistimed(PlanOf(r));
      CalendarNextIsFirst(r, now, None);
    } else if Periodic(r) {
      now := 0;
    } else {
      var table := r.cfg.cron.value;
      var k :| NextMatch(table.matches, k, table.horizon).None?;
      now := k * 60_000_000_000;
      assert (now - 60_000_000_000) / 60_000_000_000 == k - 1 && now / 60_000_000_000 == k;
      assert r.Decide(now, None) == Decided(None, true);
    }
  }

  /** The announced next run of a repeating rule is its first later firing, at every tick and after every
      earlier firing, exactly when the rule is well timed. */
  lemma NextRunCorrect(r: Rule)
    requires Calendar(r) || Periodic(r) || Cron(r)
    ensures WellTimed(r) <==>
      forall now, lastRun: Option<Time> ::
        IsTick(now) && LeftByRule(r, now, lastRun) && (lastRun.Some? ==> IsTick(lastRun.value)) ==>
        NextIsFirst(r, now, lastRun)
  {
    if WellTimed(r) {
      forall now, lastRun: Option<Time> |
        IsTick(now) && LeftByRule(r, now, lastRun) && (lastRun.Some? ==> IsTick(lastRun.value))
        ensures NextIsFirst(r, now, lastRun)
      {
        NextRunWhenWellTimed(r, now, lastRun);
      }
    } else {
      var now := NextRunWhenMistimed(r);
      assert LeftByRule(r, now, None);
    }
  }

  /** A cron expression whose day never comes (30 February, say) fires at every single tick. */
  lemma DryCronFiresAlways(r: Rule, t: Time, lastRun: Option<Time>)
    requires Cron(r) && IsTick(t) && forall k :: !r.cfg.cron.value.matches(k)
    ensures r.Decide(t, lastRun) == Decided(None, true)
  {
  }

  // ---------------------------------------------------------------- runs of ticks

  ghost predicate Increasing(ticks: seq<Time>) {
    forall i, j :: 0 <= i < j < |ticks| ==> ticks[i] < ticks[j]
  }

  /** What one tick asks a rule, given `last_run_at`. */
  type DueTest = (Time, Option<Time>) -> bool

  function DueOf(r: Rule): DueTest {
    (t: Time, lastRun: Option<Time>) => r.Due(t, lastRun)
  }

  /** `last_run_at` as tick `i` finds it: a run that fires writes its own time there. */
  function LastRunBefore(due: DueTest, ticks: seq<Time>, i: nat, first: Option<Time>): Option<Time>
    requires i <= |ticks|
  {
    if i == 0 then first
    else
      var l := LastRunBefore(due, ticks, i - 1, first);
      LastRunAfter(due(ticks[i - 1], l), ticks[i - 1], l)
  }

  predicate Fires(due: DueTest, ticks: seq<Time>, i: nat, first: Option<Time>)
    requires i < |ticks|
  {
    due(ticks[i], LastRunBefore(due, ticks, i, first))
  }

  /** `last_run_at` is the latest tick `j` that fired, or the initial value when none did. */
  lemma {:induction false} LastRunIsLatest(due: DueTest, ticks: seq<Time>, i: nat, first: Option<Time>) returns (j: int)
    requires i <= |ticks|
    ensures -1 <= j < i && LastRunBefore(due, ticks, i, first) == if j == -1 then first else Some(ticks[j])
    ensures j >= 0 ==> Fires(due, ticks, j, first)
    ensures forall k :: j < k < i ==> !Fires(due, ticks, k, first)
  {
    if i == 0 {
      j := -1;
    } else if Fires(due, ticks, i - 1, first) {
      j := i - 1;
    } else {
      j := LastRunIsLatest(due, ticks, i - 1, first);
    }
  }

  /** Tick `i` is the first open one of its slot, and the rule had not already run in that slot. */
  ghost predicate FirstOpen(open: Time -> bool, slot: Time -> int, ticks: seq<Time>, i: nat, first: Option<Time>)
    requires i < |ticks|
  {
    && open(ticks[i]) && (first.Some? ==> slot(first.value) != slot(ticks[i]))
    && forall j :: 0 <= j < i && slot(ticks[j]) == slot(ticks[i]) ==> !open(ticks[j])
  }

  ghost predicate Monotone(slot: Time -> int) {
    forall s, t :: s <= t ==> slot(s) <= slot(t)
  }

  /** The rule has run in slot `x` before tick `i`: it had at the start, or an earlier tick of the slot was open. */
  ghost predicate SlotUsed(open: Time -> bool, slot: Time -> int, ticks: seq<Time>, i: nat, first: Option<Time>, x: int)
    requires i <= |ticks|
  {
    (first.Some? && slot(first.value) == x) || exists j :: 0 <= j < i && slot(ticks[j]) == x && open(ticks[j])
  }

  /** The slots of the ticks, and of the initial run, do not go back. */
  ghost predicate SlotsInOrder(slot: Time -> int, ticks: seq<Time>, first: Option<Time>) {
    && (forall j, k :: 0 <= j <= k < |ticks| ==> slot(ticks[j]) <= slot(ticks[k]))
    && forall k :: 0 <= k < |ticks| && first.Some? ==> slot(first.value) <= slot(ticks[k])
  }

  lemma {:induction false} LastRunShowsSlot(open: Time -> bool, slot: Time -> int, due: DueTest,
                                            ticks: seq<Time>, i: nat, n: nat, first: Option<Time>)
    requires i <= n < |ticks| && SlotsInOrder(slot, ticks, first)
    requires forall t, l: Option<Time> :: due(t, l) <==> open(t) && (l.Some? ==> slot(l.value) != slot(t))
    ensures var l := LastRunBefore(due, ticks, i, first);
      l.Some? && slot(l.value) == slot(ticks[n]) <==> SlotUsed(open, slot, ticks, i, first, slot(ticks[n]))
  {
    if i > 0 {
      LastRunShowsSlot(open, slot, due, ticks, i - 1, n, first);
      LastRunShowsSlot(open, slot, due, ticks, i - 1, i - 1, first);
      var x := slot(ticks[n]);
      assert SlotUsed(open, slot, ticks, i, first, x) <==>
             SlotUsed(open, slot, ticks, i - 1, first, x) || (slot(ticks[i - 1]) == x && open(ticks[i - 1]));
    }
  }

  lemma SlotFires(open: Time -> bool, slot: Time -> int, due: DueTest, ticks: seq<Time>, i: nat, first: Option<Time>)
    requires Monotone(slot) && i < |ticks| && Increasing(ticks)
    requires forall t, l: Option<Time> :: due(t, l) <==> open(t) && (l.Some? ==> slot(l.value) != slot(t))
    requires first.Some? ==> first.value <= ticks[0]
    ensures Fires(due, ticks, i, first) <==> FirstOpen(open, slot, ticks, i, first)
  {
    LastRunShowsSlot(open, slot, due, ticks, i, i, first);
  }

  lemma FirstOpenTick(open: Time -> bool, slot: Time -> int, ticks: seq<Time>, j: nat) returns (k: nat)
    requires j < |ticks| && open(ticks[j])
    ensures k <= j && open(ticks[k]) && slot(ticks[k]) == slot(ticks[j])
    ensures forall h :: 0 <= h < k && slot(ticks[h]) == slot(ticks[k]) ==> !open(ticks[h])
  {
    k := j;
    while exists h :: 0 <= h < k && slot(ticks[h]) == slot(ticks[k]) && open(ticks[h])
      invariant 0 <= k <= j && open(ticks[k]) && slot(ticks[k]) == slot(ticks[j])
      decreases k
    {
      var h :| 0 <= h < k && slot(ticks[h]) == slot(ticks[k]) && open(ticks[h]);
      k := h;
    }
  }

  ghost predicate FirstOfSlot(r: Rule, ticks: seq<Time>, i: nat, first: Option<Time>)
    requires Calendar(r) && i < |ticks|
  {
    FirstOpen(t => PlanOf(r).Open(t), t => PlanOf(r).Slot(t), ticks, i, first)
  }

  /** A daily or weekly rule fires at exactly the first open tick of each day or ISO week, whatever gaps the
      ticks leave, unless it had already run in that slot. */
  lemma CalendarFires(r: Rule, ticks: seq<Time>, i: nat, first: Option<Time>)
    requires Calendar(r) && i < |ticks| && Increasing(ticks) && (first.Some? ==> first.value <= ticks[0])
    ensures Fires(DueOf(r), ticks, i, first) <==> FirstOfSlot(r, ticks, i, first)
  {
    forall t, l: Option<Time>
      ensures DueOf(r)(t, l) <==> PlanOf(r).Due(t, l)
    {
      CalendarDecision(r, t, l);
    }
    SlotMonotone(PlanOf(r));
    SlotFires(t => PlanOf(r).Open(t), t => PlanOf(r).Slot(t), DueOf(r), ticks, i, first);
  }

  lemma SlotMonotone(p: Plan)
    ensures Monotone(t => p.Slot(t))
  {
  }

  /** Every slot with an open tick sees exactly one firing. */
  lemma CalendarFiresOnce(r: Rule, ticks: seq<Time>, i: nat, first: Option<Time>) returns (k: nat)
    requires Calendar(r) && i < |ticks| && Increasing(ticks) && (first.Some? ==> first.value <= ticks[0])
    requires PlanOf(r).Open(ticks[i])
    requires first.Some? ==> PlanOf(r).Slot(first.value) != PlanOf(r).Slot(ticks[i])
    ensures k <= i && PlanOf(r).Slot(ticks[k]) == PlanOf(r).Slot(ticks[i]) && Fires(DueOf(r), ticks, k, first)
    ensures forall h :: 0 <= h < |ticks| && h != k && PlanOf(r).Slot(ticks[h]) == PlanOf(r).Slot(ticks[i]) ==>
            !Fires(DueOf(r), ticks, h, first)
  {
    var open, slot := t => PlanOf(r).Open(t), t => PlanOf(r).Slot(t);
    k := FirstOpenTick(open, slot, ticks, i);
    CalendarFires(r, ticks, k, first);
    forall h | 0 <= h < |ticks| && h != k && slot(ticks[h]) == slot(ticks[i])
      ensures !Fires(DueOf(r), ticks, h, first)
    {
      CalendarFires(r, ticks, h, first);
      assert h < k ==> !open(ticks[h]);
    }
  }

  /** What "open" means at a clock within the day: the rule's weekday, at or after the rule's time. */
  lemma OpenMeansDue(p: Plan, t: Time)
    requires p.Valid() && 0 <= p.offset < 86_400_000_000_000
    ensures p.Open(t) <==> (p.weekly ==> Weekday(t) == p.weekday) && t - DayStart(t) >= p.offset
  {
  }

  lemma OverlongClockNeverFires(p: Plan, t: Time, lastRun: Option<Time>)
    requires p.Valid()
    ensures p.offset >= 86_400_000_000_000 ==> !p.Due(t, lastRun)
  {
  }

  /** An interval rule fires at exactly the ticks that lie at least one interval after every earlier firing. */
  lemma IntervalFires(r: Rule, ticks: seq<Time>, i: nat, first: Option<Time>)
    requires Periodic(r) && i < |ticks| && Increasing(ticks) && (first.Some? ==> first.value <= ticks[0])
    ensures var step := r.cfg.interval.value;
      Fires(DueOf(r), ticks, i, first) <==>
      && (first.Some? ==> ticks[i] - first.value >= step)
      && forall j :: 0 <= j < i && Fires(DueOf(r), ticks, j, first) ==> ticks[i] - ticks[j] >= step
  {
    SpacedFires(r.cfg.interval.value, DueOf(r), ticks, i, first);
  }

  lemma SpacedFires(step: int, due: DueTest, ticks: seq<Time>, i: nat, first: Option<Time>)
    requires i < |ticks| && Increasing(ticks) && (first.Some? ==> first.value <= ticks[0])
    requires forall t, l: Option<Time> :: due(t, l) <==> l.None? || t - l.value >= step
    ensures Fires(due, ticks, i, first) <==>
      && (first.Some? ==> ticks[i] - first.value >= step)
      && forall j :: 0 <= j < i && Fires(due, ticks, j, first) ==> ticks[i] - ticks[j] >= step
  {
    var j := LastRunIsLatest(due, ticks, i, first);
    forall m | 0 <= m < i && Fires(due, ticks, m, first)
      ensures m <= j && ticks[m] <= ticks[j]
    {
    }
  }

  /** An immediate rule fires once in its life, at the first tick it sees. */
  lemma ImmediateFiresOnce(cfg: Config, ticks: seq<Time>, i: nat, first: Option<Time>)
    requires i < |ticks|
    ensures Fires(DueOf(Rule(Immediate, cfg)), ticks, i, first) <==> i == 0 && first.None?
  {
    if i > 0 {
      ImmediateLastRun(cfg, ticks, i, first);
    }
  }

  lemma {:induction false} ImmediateLastRun(cfg: Config, ticks: seq<Time>, i: nat, first: Option<Time>)
    requires 0 < i <= |ticks|
    ensures LastRunBefore(DueOf(Rule(Immediate, cfg)), ticks, i, first).Some?
  {
    if i > 1 {
      ImmediateLastRun(cfg, ticks, i - 1, first);
    }
  }
}
