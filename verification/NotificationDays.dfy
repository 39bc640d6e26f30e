/**
 Splitting a newest-first list into calendar days
 (web/src/modules/notifications/domain/notification-days.ts). The time zone's calendar is a parameter.
 */
module NotificationDays {
  import opened Options
  import opened Notifications
  import opened CivilDates
  import opened Decimals

  datatype Day = Today | Yesterday | ThisWeek | Month(year: int, month: nat, thisYear: bool)

  datatype DayGroup = DayGroup(key: string, day: Day, notifications: seq<Notification>)

  const DAYS_IN_A_WEEK := 7

  /** The dates a time zone gives to instants. */
  type Calendar = Instant -> CalendarDate

  function DayOf(sentAt: Instant, today: CalendarDate, calendar: Calendar): Day
    requires IsDate(today) && IsDate(calendar(sentAt))
  {
    DayOn(calendar(sentAt), today)
  }

  function DayOn(date: CalendarDate, today: CalendarDate): Day
    requires IsDate(today) && IsDate(date)
  {
    var daysAgo := EpochDay(today) - EpochDay(date);
    if daysAgo <= 0 then Today
    else if daysAgo == 1 then Yesterday
    else if daysAgo < DAYS_IN_A_WEEK then ThisWeek
    else Month(date.year, date.month, date.year == today.year)
  }

  /**
   What an entry's date is called as of today, by the calendar each is counted in: not before today, one date before it,
   two to six dates before it, or else by its own month.
   */
  lemma CalledExactly(date: CalendarDate, today: CalendarDate)
    requires IsDate(date) && IsDate(today)
    ensures var from, to := CountedAs(date), CountedAs(today);
            && (DayOn(date, today) == Today <==> !Before(from, to))
            && (DayOn(date, today) == Yesterday <==> DaysLater(from, 1) == to)
            && (DayOn(date, today) == ThisWeek
                <==> to in {DaysLater(from, 2), DaysLater(from, 3), DaysLater(from, 4), DaysLater(from, 5),
                            DaysLater(from, 6)})
            && (DayOn(date, today).Month? ==>
                  DayOn(date, today) == Month(date.year, date.month, date.year == today.year))
  {
    EpochDayIs(date);
    EpochDayIs(today);
    DayNumberMonotone(CountedAs(date), CountedAs(today));
    forall n | 1 <= n <= 6
      ensures DayNumber(CountedAs(today)) - DayNumber(CountedAs(date)) == n
              <==> DaysLater(CountedAs(date), n) == CountedAs(today)
    {
      DaysApart(CountedAs(date), CountedAs(today), n);
    }
  }

  /** `String` of an integer. */
  function Printed(n: int): string {
    if n < 0 then "-" + Decimal(-n) else Decimal(n)
  }

  function KeyOf(day: Day): string {
    match day
    case Today => "today"
    case Yesterday => "yesterday"
    case ThisWeek => "this-week"
    case Month(year, month, _) => Printed(year) + ("-" + Decimal(month))
  }

  /** Every instant gets a real date, and a later instant never an earlier one. */
  ghost predicate IsCalendar(calendar: Calendar) {
    && (forall t :: IsDate(calendar(t)))
    && (forall s, t :: s <= t ==> !Before(calendar(t), calendar(s)))
  }

  // ----- Keys tell days apart.

  lemma DigitsUpToHyphen(a: string, b: string, x: string, y: string)
    requires AllDigits(a) && AllDigits(b) && a + ("-" + x) == b + ("-" + y)
    ensures a == b && x == y
  {
    var s := a + ("-" + x);
    assert s[|a|] == '-' && s[|b|] == '-';
    assert forall i :: 0 <= i < |a| ==> IsDigit(s[i]);
    assert forall i :: 0 <= i < |b| ==> IsDigit(s[i]);
    assert |a| == |b|;
    assert a == s[..|a|] && b == s[..|b|];
    assert x == s[|a| + 1..] && y == s[|b| + 1..];
  }

  function Absolute(n: int): nat { if n < 0 then -n else n }

  lemma PrintedHead(n: int, rest: string)
    ensures (Printed(n) + rest)[0] == '-' <==> n < 0
    ensures (if n < 0 then (Printed(n) + rest)[1..] else Printed(n) + rest) == Decimal(Absolute(n)) + rest
  {
    if n < 0 {
      assert Printed(n) + rest == "-" + (Decimal(-n) + rest);
    } else {
      assert IsDigit(Decimal(n)[0]);
    }
  }

  lemma PrintedInjective(m: int, n: int, x: string, y: string)
    requires Printed(m) + ("-" + x) == Printed(n) + ("-" + y)
    ensures m == n && x == y
  {
    PrintedHead(m, "-" + x);
    PrintedHead(n, "-" + y);
    DigitsUpToHyphen(Decimal(Absolute(m)), Decimal(Absolute(n)), x, y);
    DecimalInjective(Absolute(m), Absolute(n));
  }

  /** A day of a list as of `today`. */
  predicate AsOf(day: Day, today: CalendarDate) {
    day.Month? ==> day.thisYear == (day.year == today.year)
  }

  /** Days as of one date have the same key only when they are the same. */
  lemma KeyInjective(a: Day, b: Day, today: CalendarDate)
    requires AsOf(a, today) && AsOf(b, today)
    ensures KeyOf(a) == KeyOf(b) <==> a == b
  {
    if KeyOf(a) == KeyOf(b) {
      MonthKeyStart(a);
      MonthKeyStart(b);
      if a.Month? && b.Month? {
        PrintedInjective(a.year, b.year, Decimal(a.month), Decimal(b.month));
        DecimalInjective(a.month, b.month);
      }
    }
  }

  lemma MonthKeyStart(day: Day)
    ensures KeyOf(day) != [] && (day.Month? <==> KeyOf(day)[0] == '-' || IsDigit(KeyOf(day)[0]))
    ensures !day.Month? ==> |KeyOf(day)| == (if day.Today? then 5 else 9) && (KeyOf(day)[0] == 'y' <==> day.Yesterday?)
  {
    if day.Month? {
      assert KeyOf(day)[0] == Printed(day.year)[0];
    }
  }

  // ----- Grouping.

  /** The day each entry belongs to: its own, or for an undated one that of the entry before. */
  function Days(notifications: seq<Notification>, previous: Day, today: CalendarDate,
                calendar: Calendar): (days: seq<Day>)
    requires IsDate(today) && IsCalendar(calendar)
    ensures |days| == |notifications|
  {
    if notifications == [] then []
    else
      var sentAt := notifications[0].sentAt;
      var day := if sentAt.None? then previous else DayOf(sentAt.value, today, calendar);
      [day] + Days(notifications[1..], day, today, calendar)
  }

  function Members(groups: seq<DayGroup>): seq<Notification> {
    if groups == [] then [] else groups[0].notifications + Members(groups[1..])
  }

  function Repeated(day: Day, n: nat): seq<Day> { seq(n, _ => day) }

  /** The day of each member's group. */
  function MemberDays(groups: seq<DayGroup>): seq<Day> {
    if groups == [] then [] else Repeated(groups[0].day, |groups[0].notifications|) + MemberDays(groups[1..])
  }

  predicate KeysDistinct(groups: seq<DayGroup>) {
    forall i, j :: 0 <= i < j < |groups| ==> groups[i].key != groups[j].key
  }

  predicate NeighboursDiffer(groups: seq<DayGroup>) {
    forall i :: 0 < i < |groups| ==> groups[i - 1].key != groups[i].key
  }

  ghost predicate NewestFirst(notifications: seq<Notification>) {
    forall i, j :: 0 <= i < j < |notifications| && notifications[i].sentAt.Some? && notifications[j].sentAt.Some? ==>
      notifications[i].sentAt.value >= notifications[j].sentAt.value
  }

  function Bucket(day: Day): nat {
    match day
    case Today => 0
    case Yesterday => 1
    case ThisWeek => 2
    case Month(_, _, _) => 3
  }

  /** `b` lies no later than `a`, as headings go down the list. */
  predicate NotAbove(a: Day, b: Day) {
    Bucket(a) < Bucket(b)
    || (Bucket(a) == Bucket(b) && (a.Month? ==> a.year > b.year || (a.year == b.year && a.month >= b.month)))
  }

  /** What keeps the headings apart: its own count, being today, or being under its own month. */
  lemma NotAboveWhen(a: CalendarDate, b: CalendarDate, today: CalendarDate)
    requires IsDate(a) && IsDate(b) && IsDate(today) && !Before(a, b)
    requires EpochDay(b) <= EpochDay(a) || DayOn(a, today).Today? || DayOn(b, today).Month?
    ensures NotAbove(DayOn(a, today), DayOn(b, today))
  {
  }

  const LEAPT_WEEK := CalendarDate(2000, 1, 7)
  const FIRST_PLAIN := CalendarDate(100, 1, 1)

  /**
   Days as of which `Date.UTC`'s reading of a two-digit year as one of the 1900s does no harm: from January 7th 2000
   all such dates are a week back or more, each under its own month; before the year 0, and on the first day of the
   year 100, they are all today, as is every date after them.
   */
  predicate KeepsHeadingsApart(today: CalendarDate) {
    !Before(today, LEAPT_WEEK) || today == FIRST_PLAIN || today.year < 0
  }

  /** A week after the last day of 1999. */
  lemma LeaptWeekStarts()
    ensures DayNumber(LEAPT_WEEK) == DayNumber(LAST_COUNTED) + DAYS_IN_A_WEEK
  {
    assert DaysBefore(1999, 12) + 31 == 365 by {
      YearOfMonths(1999);
    }
  }

  lemma PlainOrder(a: CalendarDate, b: CalendarDate)
    requires IsDate(a) && IsDate(b) && !IsTwoDigit(a) && !IsTwoDigit(b)
    ensures EpochDay(a) == DayNumber(a) && EpochDay(b) == DayNumber(b)
    ensures EpochDay(a) < EpochDay(b) <==> Before(a, b)
  {
    EpochDayMeaning(a);
    EpochDayMeaning(b);
    DayNumberMonotone(a, b);
  }

  /** From January 7th 2000 a two-digit year lies under its own month. */
  lemma TwoDigitMonth(date: CalendarDate, today: CalendarDate)
    requires IsDate(date) && IsDate(today) && IsTwoDigit(date) && !Before(today, LEAPT_WEEK)
    ensures DayOn(date, today).Month?
  {
    TwoDigitSpan(date);
    LeaptWeekStarts();
    EpochDayMeaning(today);
    DayNumberMonotone(today, LEAPT_WEEK);
  }

  /** Before 1900 by its own count, every later date is today. */
  lemma LaterIsToday(date: CalendarDate, today: CalendarDate)
    requires IsDate(date) && IsDate(today) && (today == FIRST_PLAIN || today.year < 0)
    requires IsTwoDigit(date) || date.year >= 100
    ensures DayOn(date, today).Today?
  {
    EpochDayMeaning(today);
    if IsTwoDigit(date) {
      TwoDigitSpan(date);
      DayNumberMonotone(today, FIRST_COUNTED);
    } else {
      PlainOrder(date, today);
    }
  }

  lemma OlderIsNotAbove(a: CalendarDate, b: CalendarDate, today: CalendarDate)
    requires IsDate(a) && IsDate(b) && IsDate(today) && !Before(a, b) && KeepsHeadingsApart(today)
    ensures NotAbove(DayOn(a, today), DayOn(b, today))
  {
    if !IsTwoDigit(a) && !IsTwoDigit(b) {
      PlainOrder(a, b);
    } else if !Before(today, LEAPT_WEEK) {
      if IsTwoDigit(b) {
        TwoDigitMonth(b, today);
      } else {
        TwoDigitSpan(a);
        EpochDayMeaning(b);
        DayNumberMonotone(b, FIRST_COUNTED);
      }
    } else {
      LaterIsToday(a, today);
    }
    NotAboveWhen(a, b, today);
  }

  lemma {:induction false} MembersConcat(groups: seq<DayGroup>, group: DayGroup)
    ensures Members(groups + [group]) == Members(groups) + group.notifications
    ensures MemberDays(groups + [group]) == MemberDays(groups) + Repeated(group.day, |group.notifications|)
  {
    if groups == [] {
      assert groups + [group] == [group];
      assert Members([group][1..]) == [] && MemberDays([group][1..]) == [];
    } else {
      assert (groups + [group])[1..] == groups[1..] + [group];
      MembersConcat(groups[1..], group);
    }
  }

  /** One more entry: onto the last group when the key is the same, else in a group of its own. */
  function Placed(groups: seq<DayGroup>, day: Day, notification: Notification): seq<DayGroup> {
    if groups != [] && groups[|groups| - 1].key == KeyOf(day) then
      var open := groups[|groups| - 1];
      groups[..|groups| - 1] + [open.(notifications := open.notifications + [notification])]
    else groups + [DayGroup(KeyOf(day), day, [notification])]
  }

  ghost predicate WellFormed(groups: seq<DayGroup>, today: CalendarDate) {
    && (forall g :: 0 <= g < |groups| ==>
          groups[g].notifications != [] && groups[g].key == KeyOf(groups[g].day) && AsOf(groups[g].day, today))
    && NeighboursDiffer(groups)
  }

  ghost predicate Descending(groups: seq<DayGroup>) {
    forall i, j :: 0 <= i < j < |groups| ==>
      NotAbove(groups[i].day, groups[j].day) && groups[i].day != groups[j].day
  }

  lemma GrownMembers(init: seq<DayGroup>, open: DayGroup, notification: Notification)
    ensures var grown := open.(notifications := open.notifications + [notification]);
            && Members(init + [grown]) == Members(init + [open]) + [notification]
            && MemberDays(init + [grown]) == MemberDays(init + [open]) + [open.day]
  {
    var grown := open.(notifications := open.notifications + [notification]);
    MembersConcat(init, open);
    MembersConcat(init, grown);
    assert Repeated(open.day, |grown.notifications|) == Repeated(open.day, |open.notifications|) + [open.day];
  }

  lemma PlacedMembers(groups: seq<DayGroup>, day: Day, notification: Notification, today: CalendarDate)
    requires WellFormed(groups, today) && AsOf(day, today)
    ensures Members(Placed(groups, day, notification)) == Members(groups) + [notification]
    ensures MemberDays(Placed(groups, day, notification)) == MemberDays(groups) + [day]
  {
    if groups != [] && groups[|groups| - 1].key == KeyOf(day) {
      var init, open := groups[..|groups| - 1], groups[|groups| - 1];
      assert groups == init + [open];
      KeyInjective(open.day, day, today);
      GrownMembers(init, open, notification);
    } else {
      MembersConcat(groups, DayGroup(KeyOf(day), day, [notification]));
      assert Repeated(day, 1) == [day];
    }
  }

  lemma WellFormedSnoc(groups: seq<DayGroup>, last: DayGroup, today: CalendarDate)
    requires WellFormed(groups, today)
    requires last.notifications != [] && last.key == KeyOf(last.day) && AsOf(last.day, today)
    requires groups != [] ==> groups[|groups| - 1].key != last.key
    ensures WellFormed(groups + [last], today)
  {
  }

  lemma PlacedWellFormed(groups: seq<DayGroup>, day: Day, notification: Notification, today: CalendarDate)
    requires WellFormed(groups, today) && AsOf(day, today)
    ensures var placed := Placed(groups, day, notification);
            WellFormed(placed, today) && placed != [] && placed[|placed| - 1].day == day
  {
    if groups != [] && groups[|groups| - 1].key == KeyOf(day) {
      var init, open := groups[..|groups| - 1], groups[|groups| - 1];
      KeyInjective(open.day, day, today);
      WellFormedSnoc(init, open.(notifications := open.notifications + [notification]), today);
    } else {
      WellFormedSnoc(groups, DayGroup(KeyOf(day), day, [notification]), today);
    }
  }

  lemma PlacedDescending(groups: seq<DayGroup>, day: Day, notification: Notification, today: CalendarDate)
    requires WellFormed(groups, today) && AsOf(day, today) && Descending(groups)
    requires groups != [] ==> NotAbove(groups[|groups| - 1].day, day)
    ensures Descending(Placed(groups, day, notification))
  {
    if groups != [] {
      var init, last := groups[..|groups| - 1], groups[|groups| - 1];
      KeyInjective(last.day, day, today);
      if last.key == KeyOf(day) {
        DescendingSnoc(init, last.(notifications := last.notifications + [notification]));
      } else {
        forall i | 0 <= i < |groups|
          ensures NotAbove(groups[i].day, day) && groups[i].day != day
        {
          if i < |init| {
            NotAboveOrder(groups[i].day, last.day, day, today);
          }
        }
        DescendingSnoc(groups, DayGroup(KeyOf(day), day, [notification]));
      }
    }
  }

  lemma DescendingSnoc(groups: seq<DayGroup>, last: DayGroup)
    requires Descending(groups)
    requires forall i :: 0 <= i < |groups| ==> NotAbove(groups[i].day, last.day) && groups[i].day != last.day
    ensures Descending(groups + [last])
  {
  }

  lemma NotAboveOrder(a: Day, b: Day, c: Day, today: CalendarDate)
    requires AsOf(a, today) && AsOf(b, today) && AsOf(c, today) && NotAbove(a, b) && NotAbove(b, c)
    ensures NotAbove(a, c) && (a == c ==> a == b)
  {
  }

  lemma DescendingKeys(groups: seq<DayGroup>, today: CalendarDate)
    requires WellFormed(groups, today) && Descending(groups)
    ensures KeysDistinct(groups)
  {
    forall i, j | 0 <= i < j < |groups|
      ensures groups[i].key != groups[j].key
    {
      KeyInjective(groups[i].day, groups[j].day, today);
    }
  }

  /** Every dated entry from `k` on lies no higher than `last`. */
  ghost predicate NoneAbove(last: Day, notifications: seq<Notification>, k: nat, today: CalendarDate,
                            calendar: Calendar)
    requires IsCalendar(calendar) && IsDate(today)
  {
    forall i :: k <= i < |notifications| && notifications[i].sentAt.Some? ==>
      NotAbove(last, DayOf(notifications[i].sentAt.value, today, calendar))
  }

  /** The day of the last group, where an undated entry goes; with no group yet, today. */
  function LastDay(groups: seq<DayGroup>): Day {
    if groups == [] then Today else groups[|groups| - 1].day
  }

  function DayFor(notification: Notification, previous: Day, today: CalendarDate, calendar: Calendar): Day
    requires IsDate(today) && IsCalendar(calendar)
  {
    if notification.sentAt.None? then previous else DayOf(notification.sentAt.value, today, calendar)
  }

  /** What placing the entries one by one makes of `groups`. */
  function Grouped(notifications: seq<Notification>, groups: seq<DayGroup>, today: CalendarDate,
                   calendar: Calendar): seq<DayGroup>
    requires IsDate(today) && IsCalendar(calendar)
    decreases |notifications|
  {
    if notifications == [] then groups
    else
      var day := DayFor(notifications[0], LastDay(groups), today, calendar);
      Grouped(notifications[1..], Placed(groups, day, notifications[0]), today, calendar)
  }

  method GroupByDay(notifications: seq<Notification>, now: Instant, calendar: Calendar) returns (groups: seq<DayGroup>)
    requires IsCalendar(calendar)
    ensures groups == Grouped(notifications, [], calendar(now), calendar)
  {
    var today := calendar(now);
    groups := [];
    for k := 0 to |notifications|
      invariant Grouped(notifications[k..], groups, today, calendar) == Grouped(notifications, [], today, calendar)
    {
      var notification := notifications[k];
      var day := if notification.sentAt.None? then (if groups == [] then Today else groups[|groups| - 1].day)
                 else DayOf(notification.sentAt.value, today, calendar);
      var key := KeyOf(day);
      assert notifications[k..][1..] == notifications[k + 1..];
      if groups != [] && groups[|groups| - 1].key == key {
        var open := groups[|groups| - 1];
        groups := groups[..|groups| - 1] + [open.(notifications := open.notifications + [notification])];
      } else {
        groups := groups + [DayGroup(key, day, [notification])];
      }
    }
  }

  /** One entry more keeps the groups well formed, and puts it last under its own day. */
  lemma PlacedForDay(groups: seq<DayGroup>, n: Notification, today: CalendarDate, calendar: Calendar)
    requires IsDate(today) && IsCalendar(calendar) && WellFormed(groups, today)
    ensures var day := DayFor(n, LastDay(groups), today, calendar);
            var placed := Placed(groups, day, n);
            && WellFormed(placed, today) && LastDay(placed) == day
            && Members(placed) == Members(groups) + [n] && MemberDays(placed) == MemberDays(groups) + [day]
  {
    var day := DayFor(n, LastDay(groups), today, calendar);
    PlacedMembers(groups, day, n, today);
    PlacedWellFormed(groups, day, n, today);
  }

  lemma FirstPlaced(notifications: seq<Notification>, groups: seq<DayGroup>, today: CalendarDate, calendar: Calendar)
    returns (placed: seq<DayGroup>, day: Day)
    requires IsDate(today) && IsCalendar(calendar) && WellFormed(groups, today) && notifications != []
    ensures Grouped(notifications, groups, today, calendar) == Grouped(notifications[1..], placed, today, calendar)
    ensures WellFormed(placed, today) && LastDay(placed) == day
    ensures Members(placed) == Members(groups) + [notifications[0]] && MemberDays(placed) == MemberDays(groups) + [day]
    ensures Days(notifications, LastDay(groups), today, calendar)
            == [day] + Days(notifications[1..], day, today, calendar)
  {
    var n := notifications[0];
    PlacedForDay(groups, n, today, calendar);
    day := DayFor(n, LastDay(groups), today, calendar);
    placed := Placed(groups, day, n);
  }

  lemma {:induction false} GroupedMembers(notifications: seq<Notification>, groups: seq<DayGroup>,
                                          today: CalendarDate, calendar: Calendar)
    requires IsDate(today) && IsCalendar(calendar) && WellFormed(groups, today)
    ensures var r := Grouped(notifications, groups, today, calendar);
            WellFormed(r, today) && Members(r) == Members(groups) + notifications
    decreases |notifications|
  {
    if notifications != [] {
      var placed, _ := FirstPlaced(notifications, groups, today, calendar);
      GroupedMembers(notifications[1..], placed, today, calendar);
      OneAfter(Members(groups), notifications[0], notifications[1..]);
      assert notifications == [notifications[0]] + notifications[1..];
    }
  }

  lemma OneAfter<T>(a: seq<T>, x: T, b: seq<T>)
    ensures a + [x] + b == a + ([x] + b)
  {
  }

  lemma {:induction false} GroupedDays(notifications: seq<Notification>, groups: seq<DayGroup>,
                                       today: CalendarDate, calendar: Calendar)
    requires IsDate(today) && IsCalendar(calendar) && WellFormed(groups, today)
    ensures MemberDays(Grouped(notifications, groups, today, calendar))
            == MemberDays(groups) + Days(notifications, LastDay(groups), today, calendar)
    decreases |notifications|
  {
    if notifications != [] {
      var placed, day := FirstPlaced(notifications, groups, today, calendar);
      GroupedDays(notifications[1..], placed, today, calendar);
      OneAfter(MemberDays(groups), day, Days(notifications[1..], day, today, calendar));
    }
  }

  /** An order-preserving partition of the entries into non-empty groups, each entry under its own day. */
  lemma GroupedPartition(notifications: seq<Notification>, today: CalendarDate, calendar: Calendar)
    requires IsDate(today) && IsCalendar(calendar)
    ensures var r := Grouped(notifications, [], today, calendar);
            && WellFormed(r, today) && Members(r) == notifications
            && MemberDays(r) == Days(notifications, Today, today, calendar)
  {
    GroupedMembers(notifications, [], today, calendar);
    GroupedDays(notifications, [], today, calendar);
  }

  lemma {:induction false} GroupedDescending(notifications: seq<Notification>, k: nat, groups: seq<DayGroup>,
                                             now: Instant, calendar: Calendar)
    requires IsCalendar(calendar) && k <= |notifications|
    requires NewestFirst(notifications) && KeepsHeadingsApart(calendar(now))
    requires WellFormed(groups, calendar(now)) && Descending(groups)
    requires NoneAbove(LastDay(groups), notifications, k, calendar(now), calendar)
    ensures Descending(Grouped(notifications[k..], groups, calendar(now), calendar))
    decreases |notifications| - k
  {
    if k < |notifications| {
      var n := notifications[k];
      var day := DayFor(n, LastDay(groups), calendar(now), calendar);
      NextNoneAbove(LastDay(groups), notifications, k, now, calendar);
      PlacedWellFormed(groups, day, n, calendar(now));
      PlacedDescending(groups, day, n, calendar(now));
      GroupedDescending(notifications, k + 1, Placed(groups, day, n), now, calendar);
      assert notifications[k..][1..] == notifications[k + 1..];
    }
  }

  lemma NextNoneAbove(last: Day, notifications: seq<Notification>, k: nat, now: Instant, calendar: Calendar)
    requires IsCalendar(calendar) && k < |notifications|
    requires NewestFirst(notifications) && KeepsHeadingsApart(calendar(now))
    requires NoneAbove(last, notifications, k, calendar(now), calendar)
    ensures notifications[k].sentAt.None? ==> NoneAbove(last, notifications, k + 1, calendar(now), calendar)
    ensures notifications[k].sentAt.Some? ==>
              var day := DayOf(notifications[k].sentAt.value, calendar(now), calendar);
              NotAbove(last, day) && NoneAbove(day, notifications, k + 1, calendar(now), calendar)
  {
    if notifications[k].sentAt.Some? {
      forall i | k < i < |notifications| && notifications[i].sentAt.Some?
        ensures NotAbove(DayOf(notifications[k].sentAt.value, calendar(now), calendar),
                         DayOf(notifications[i].sentAt.value, calendar(now), calendar))
      {
        var older, newer := calendar(notifications[k].sentAt.value), calendar(notifications[i].sentAt.value);
        OlderIsNotAbove(older, newer, calendar(now));
      }
    }
  }

  /**
   A newest-first list, undated entries anywhere, splits into groups whose keys are all different, not just
   those of neighbours.
   */
  lemma DistinctHeadings(notifications: seq<Notification>, now: Instant, calendar: Calendar)
    requires IsCalendar(calendar)
    requires NewestFirst(notifications) && KeepsHeadingsApart(calendar(now))
    ensures KeysDistinct(Grouped(notifications, [], calendar(now), calendar))
  {
    assert notifications[0..] == notifications;
    GroupedDescending(notifications, 0, [], now, calendar);
    GroupedPartition(notifications, calendar(now), calendar);
    DescendingKeys(Grouped(notifications, [], calendar(now), calendar), calendar(now));
  }

  /** A day that comes back after another one repeats its key. */
  lemma ReturningDay(a: Notification, b: Notification, c: Notification, x: Day, y: Day, today: CalendarDate,
                     calendar: Calendar)
    requires IsDate(today) && IsCalendar(calendar) && KeyOf(x) != KeyOf(y)
    requires DayFor(a, Today, today, calendar) == x && DayFor(b, x, today, calendar) == y
    requires DayFor(c, y, today, calendar) == x
    ensures !KeysDistinct(Grouped([a, b, c], [], today, calendar))
  {
    var first, second, third := DayGroup(KeyOf(x), x, [a]), DayGroup(KeyOf(y), y, [b]), DayGroup(KeyOf(x), x, [c]);
    assert [a, b, c][1..] == [b, c] && [b, c][1..] == [c] && [c][1..] == [];
    assert Placed([], x, a) == [first];
    assert Placed([first], y, b) == [first, second];
    assert Placed([first, second], x, c) == [first, second, third];
    assert Grouped([c], [first, second], today, calendar) == Grouped([], [first, second, third], today, calendar);
    assert Grouped([b, c], [first], today, calendar) == Grouped([c], [first, second], today, calendar);
    assert Grouped([a, b, c], [], today, calendar) == Grouped([b, c], [first], today, calendar);
    assert [first, second, third][0].key == [first, second, third][2].key;
  }

  /** A calendar reading `c`, then `b`, then `a`, then `top`. */
  function Reading(top: CalendarDate, a: CalendarDate, b: CalendarDate, c: CalendarDate): Calendar {
    (t: Instant) => if t >= 3 then top else if t == 2 then a else if t == 1 then b else c
  }

  function Sent(at: Instant): Notification { Notification("", "", "", true, Some(at), None) }

  /** Entries on `a`, `b` and `c`, newest first, when `a` and `c` share a heading that `b` does not. */
  lemma HeadingReturns(top: CalendarDate, a: CalendarDate, b: CalendarDate, c: CalendarDate, now: Instant)
    requires IsDate(top) && IsDate(a) && IsDate(b) && IsDate(c) && !Before(top, a) && Before(b, a) && Before(c, b)
    requires var today := Reading(top, a, b, c)(now);
             DayOn(a, today) == DayOn(c, today) != DayOn(b, today)
    ensures !HeadingsApart([Sent(2), Sent(1), Sent(0)], now, Reading(top, a, b, c))
  {
    var calendar := Reading(top, a, b, c);
    var today := calendar(now);
    ReadingIsCalendar(top, a, b, c);
    SentNewestFirst();
    KeyInjective(DayOn(a, today), DayOn(b, today), today);
    ReturningDay(Sent(2), Sent(1), Sent(0), DayOn(a, today), DayOn(b, today), today, calendar);
  }

  lemma ReadingIsCalendar(top: CalendarDate, a: CalendarDate, b: CalendarDate, c: CalendarDate)
    requires IsDate(top) && IsDate(a) && IsDate(b) && IsDate(c) && !Before(top, a) && Before(b, a) && Before(c, b)
    ensures IsCalendar(Reading(top, a, b, c))
  {
  }

  lemma SentNewestFirst()
    ensures NewestFirst([Sent(2), Sent(1), Sent(0)])
  {
  }

  /** One list in one calendar at one moment: newest first, it gets no heading twice. */
  ghost predicate HeadingsApart(notifications: seq<Notification>, now: Instant, calendar: Calendar) {
    IsCalendar(calendar) && NewestFirst(notifications) ==>
      KeysDistinct(Grouped(notifications, [], calendar(now), calendar))
  }

  ghost predicate AlwaysApart(today: CalendarDate) {
    forall notifications: seq<Notification>, now: Instant, calendar: Calendar ::
      calendar(now) == today ==> HeadingsApart(notifications, now, calendar)
  }

  /** As of a two-digit year: an entry of the year 100 comes between two that are today. */
  lemma TwoDigitTodayRepeats(today: CalendarDate)
    requires IsDate(today) && IsTwoDigit(today)
    ensures !AlwaysApart(today)
  {
    var later := CalendarDate(2000, 1, 1);
    TwoDigitSpan(today);
    PlainOrder(later, LAST_COUNTED);
    PlainOrder(FIRST_PLAIN, FIRST_COUNTED);
    HeadingReturns(later, later, FIRST_PLAIN, today, 0);
    assert Reading(later, later, FIRST_PLAIN, today)(0) == today;
  }

  /**
   As of January 2nd 100 to January 6th 2000: December 31st 99 is counted as December 31st 1999, or as today, and an
   entry of the year 100 comes between.
   */
  lemma EarlyTodayRepeats(today: CalendarDate)
    requires IsDate(today) && Before(FIRST_PLAIN, today) && Before(today, LEAPT_WEEK)
    ensures !AlwaysApart(today)
  {
    var a := if Before(LAST_COUNTED, today) then LAST_COUNTED else today;
    PlainOrder(LAST_COUNTED, today);
    PlainOrder(FIRST_PLAIN, a);
    if Before(LAST_COUNTED, today) {
      LeaptHeadings(today);
    } else {
      CenturyHeadings(today);
    }
    HeadingReturns(today, a, FIRST_PLAIN, LAST_TWO_DIGIT, 3);
    assert Reading(today, a, FIRST_PLAIN, LAST_TWO_DIGIT)(3) == today;
  }

  const LAST_TWO_DIGIT := CalendarDate(99, 12, 31)

  /** In the first week of 2000 the last day of 99 is the last day of 1999. */
  lemma LeaptHeadings(today: CalendarDate)
    requires IsDate(today) && Before(LAST_COUNTED, today) && Before(today, LEAPT_WEEK)
    ensures DayOn(LAST_TWO_DIGIT, today) == DayOn(LAST_COUNTED, today) != DayOn(FIRST_PLAIN, today)
  {
    EpochDayMeaning(LAST_TWO_DIGIT);
    PlainOrder(LAST_COUNTED, today);
    PlainOrder(today, LEAPT_WEEK);
    PlainOrder(FIRST_PLAIN, today);
    LeaptWeekStarts();
    FirstPlainIsOld();
  }

  /** Up to then it is today. */
  lemma CenturyHeadings(today: CalendarDate)
    requires IsDate(today) && Before(FIRST_PLAIN, today) && !Before(LAST_COUNTED, today)
    ensures DayOn(LAST_TWO_DIGIT, today) == DayOn(today, today) != DayOn(FIRST_PLAIN, today)
  {
    EpochDayMeaning(LAST_TWO_DIGIT);
    PlainOrder(LAST_COUNTED, today);
    PlainOrder(FIRST_PLAIN, today);
  }

  lemma FirstPlainIsOld()
    ensures DayNumber(FIRST_PLAIN) + DAYS_IN_A_WEEK < DayNumber(LAST_COUNTED)
  {
    WithinYear(FIRST_PLAIN);
    WithinYear(LAST_COUNTED);
  }

  /** Exactly the days as of which every newest-first list in every calendar gets each heading once. */
  lemma HeadingsApartExactly(today: CalendarDate)
    requires IsDate(today)
    ensures AlwaysApart(today) <==> KeepsHeadingsApart(today)
  {
    if KeepsHeadingsApart(today) {
      forall notifications: seq<Notification>, now: Instant, calendar: Calendar | calendar(now) == today
        ensures HeadingsApart(notifications, now, calendar)
      {
        if IsCalendar(calendar) && NewestFirst(notifications) {
          DistinctHeadings(notifications, now, calendar);
        }
      }
    } else if IsTwoDigit(today) {
      TwoDigitTodayRepeats(today);
    } else {
      EarlyTodayRepeats(today);
    }
  }
}
