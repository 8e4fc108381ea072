/** The weekly schedule page (`client/src/pages/schedule.tsx`): grouping items into the seven
    day columns, sorting each column by start time, and the create form. */
module Schedule {
  import opened Strings
  import opened Lists
  import Storage

  datatype ScheduleItem = ScheduleItem(
    id: int, title: string, subject: Option<string>, startTime: string, endTime: string,
    dayOfWeek: int, color: string)

  const DaysOfWeek: seq<string> := ["Sunday", "Monday", "Tuesday", "Wednesday", "Thursday", "Friday", "Saturday"]

  // ---------------------------------------------------------------- grouping

  /** One column of the week. */
  datatype DayColumn = DayColumn(day: string, dayIndex: int, items: seq<ScheduleItem>)

  /** The items of day `i`, in the order they arrived. */
  function DayItems(items: seq<ScheduleItem>, i: int): (r: seq<ScheduleItem>)
    ensures forall k | 0 <= k < |r| :: r[k] in items && r[k].dayOfWeek == i
    ensures forall k | 0 <= k < |items| && items[k].dayOfWeek == i :: items[k] in r
    ensures IsSubsequence(r, items)
  {
    var p := (it: ScheduleItem) => it.dayOfWeek == i;
    FilterMembershipAll(items, p);
    FilterIsSubsequence(items, p);
    Filter(items, p)
  }

  /** `scheduleByDay`: seven columns, Sunday to Saturday; the query data is `None` while it has
      not arrived, which gives empty columns. */
  function ScheduleByDay(scheduleItems: Option<seq<ScheduleItem>>): (r: seq<DayColumn>)
    ensures |r| == 7
    ensures forall i | 0 <= i < 7 :: r[i].day == DaysOfWeek[i] && r[i].dayIndex == i
    ensures forall i | 0 <= i < 7 ::
              r[i].items == DayItems(if scheduleItems.Some? then scheduleItems.value else [], i)
  {
    var items := if scheduleItems.Some? then scheduleItems.value else [];
    seq(7, i requires 0 <= i < 7 => DayColumn(DaysOfWeek[i], i, DayItems(items, i)))
  }

  /** An item with a day in 0..6 shows in that day's column and no other; any other day number
      shows nowhere. */
  lemma ExactlyOneColumn(items: seq<ScheduleItem>, k: nat)
    requires k < |items|
    ensures var cols := ScheduleByDay(Some(items));
      forall i | 0 <= i < 7 :: items[k] in cols[i].items <==> items[k].dayOfWeek == i
  {
    var cols := ScheduleByDay(Some(items));
    forall i | 0 <= i < 7
      ensures items[k] in cols[i].items <==> items[k].dayOfWeek == i
    {
      if items[k] in cols[i].items {
        var j :| 0 <= j < |cols[i].items| && cols[i].items[j] == items[k];
      }
    }
  }

  /** Before the data arrives, and with no data, every column is empty. */
  lemma NoDataEmptyColumns(scheduleItems: Option<seq<ScheduleItem>>)
    requires scheduleItems.None? || scheduleItems == Some([])
    ensures forall i | 0 <= i < 7 :: ScheduleByDay(scheduleItems)[i].items == []
  {
    forall i | 0 <= i < 7
      ensures ScheduleByDay(scheduleItems)[i].items == []
    {
      FilterNone([], (it: ScheduleItem) => it.dayOfWeek == i);
    }
  }

  // ---------------------------------------------------------------- the order of a column

  /** Code-unit lexicographic order on strings, standing in for `localeCompare(...) <= 0`. */
  predicate LexLessEq(a: string, b: string)
    decreases |a|
  {
    a == [] || (b != [] && (a[0] < b[0] || (a[0] == b[0] && LexLessEq(a[1..], b[1..]))))
  }

  lemma {:induction false} LexTotal(a: string, b: string)
    ensures LexLessEq(a, b) || LexLessEq(b, a)
    decreases |a|
  {
    if a != [] && b != [] && a[0] == b[0] {
      LexTotal(a[1..], b[1..]);
    }
  }

  lemma {:induction false} LexTransitive(a: string, b: string, c: string)
    requires LexLessEq(a, b) && LexLessEq(b, c)
    ensures LexLessEq(a, c)
    decreases |a|
  {
    if a != [] && a[0] == b[0] && b[0] == c[0] {
      LexTransitive(a[1..], b[1..], c[1..]);
    }
  }

  predicate StartsNoLater(x: ScheduleItem, y: ScheduleItem)
  {
    LexLessEq(x.startTime, y.startTime)
  }

  /** Each item starts no later than the next one. */
  predicate SortedByStart(s: seq<ScheduleItem>)
  {
    forall k | 0 < k < |s| :: StartsNoLater(s[k - 1], s[k])
  }

  /** Neighbour order is order between any two positions. */
  lemma {:induction false} SortedPairwise(s: seq<ScheduleItem>, i: nat, j: nat)
    requires SortedByStart(s) && i <= j < |s|
    ensures StartsNoLater(s[i], s[j])
    decreases j - i
  {
    if i == j {
      LexTotal(s[i].startTime, s[i].startTime);
    } else {
      SortedPairwise(s, i + 1, j);
      LexTransitive(s[i].startTime, s[i + 1].startTime, s[j].startTime);
    }
  }

  /** `items.sort((a, b) => a.startTime.localeCompare(b.startTime))`, in place, by insertion. */
  method SortByStart(a: array<ScheduleItem>)
    modifies a
    ensures SortedByStart(a[..])
    ensures multiset(a[..]) == multiset(old(a[..]))
  {
    var i := 0;
    while i < a.Length
      invariant 0 <= i <= a.Length
      invariant SortedByStart(a[..i])
      invariant multiset(a[..]) == multiset(old(a[..]))
    {
      InsertLast(a, i);
      i := i + 1;
    }
    assert a[..] == a[..a.Length];
  }

  /** Moves `a[i]` left past every item that starts later, so that `a[..i + 1]` is sorted. */
  method InsertLast(a: array<ScheduleItem>, i: nat)
    requires i < a.Length && SortedByStart(a[..i])
    modifies a
    ensures SortedByStart(a[..i + 1])
    ensures multiset(a[..]) == multiset(old(a[..]))
  {
    var j := i;
    while j > 0 && !StartsNoLater(a[j - 1], a[j])
      invariant 0 <= j <= i
      invariant forall k | 0 < k <= i && k != j :: StartsNoLater(a[k - 1], a[k])
      invariant 0 < j < i ==> StartsNoLater(a[j - 1], a[j + 1])
      invariant multiset(a[..]) == multiset(old(a[..]))
    {
      LexTotal(a[j - 1].startTime, a[j].startTime);
      SwapDown(a, j);
      j := j - 1;
    }
  }

  /** Exchanges `a[j - 1]` and `a[j]`. */
  method SwapDown(a: array<ScheduleItem>, j: nat)
    requires 0 < j < a.Length
    modifies a
    ensures a[..] == old(a[..])[j - 1 := old(a[j])][j := old(a[j - 1])]
    ensures multiset(a[..]) == multiset(old(a[..]))
  {
    a[j - 1], a[j] := a[j], a[j - 1];
  }

  /** One column as displayed: the day's items, sorted by start time. */
  method DisplayedColumn(items: seq<ScheduleItem>, dayIndex: int) returns (shown: seq<ScheduleItem>)
    ensures SortedByStart(shown)
    ensures multiset(shown) == multiset(DayItems(items, dayIndex))
    ensures forall k | 0 <= k < |shown| :: shown[k] in items && shown[k].dayOfWeek == dayIndex
  {
    var group := DayItems(items, dayIndex);
    var a := new ScheduleItem[|group|](k requires 0 <= k < |group| => group[k]);
    assert a[..] == group;
    SortByStart(a);
    shown := a[..];
    forall k | 0 <= k < |shown|
      ensures shown[k] in items && shown[k].dayOfWeek == dayIndex
    {
      assert shown[k] in multiset(group);
    }
  }

  // ---------------------------------------------------------------- the create form

  datatype ScheduleForm = ScheduleForm(
    title: string, subject: string, startTime: string, endTime: string, dayOfWeek: int, color: string)

  /** The form on opening and after every successful create. */
  const EmptyForm := ScheduleForm("", "all", "", "", 0, "#3B82F6")

  /** Create posts the form as it stands. */
  function CreateBody(form: ScheduleForm): (r: Storage.ScheduleFields)
    ensures r.title == form.title && r.subject == form.subject && r.startTime == form.startTime
    ensures r.endTime == form.endTime && r.dayOfWeek == form.dayOfWeek && r.color == form.color
  {
    Storage.ScheduleFields(form.title, form.subject, form.startTime, form.endTime, form.dayOfWeek, form.color)
  }

  /** The reset form lands on Sunday with the blue colour, and its subject `"all"` is posted and
      stored as the literal subject `"all"`. */
  lemma ResetFormPostsAll()
    ensures CreateBody(EmptyForm).subject == "all"
    ensures CreateBody(EmptyForm).dayOfWeek == 0 && DaysOfWeek[CreateBody(EmptyForm).dayOfWeek] == "Sunday"
    ensures CreateBody(EmptyForm).color == "#3B82F6"
  {
  }
}
