/** What the viewer computes from the parsed records: the sender list, the date window and
    keyword filter, and the time label of a chat bubble. */
module Viewer {
  import opened Wrappers
  import opened Text
  import opened HeaderPattern
  import opened Timestamps
  import opened Transcript

  // ---------------------------------------------------------------- senders

  predicate NoDuplicates<T(==)>(xs: seq<T>) {
    forall i, j :: 0 <= i < j < |xs| ==> xs[i] != xs[j]
  }

  /** Position of the first occurrence of `x` in `xs`. */
  function FirstIndex<T(==)>(xs: seq<T>, x: T): (k: nat)
    requires x in xs
    ensures k < |xs| && xs[k] == x
    ensures forall i :: 0 <= i < k ==> xs[i] != x
  {
    if xs[0] == x then 0 else 1 + FirstIndex(xs[1..], x)
  }

  /** The distinct elements of `xs`, each kept where it first occurs (pandas `unique`). */
  function Unique(xs: seq<string>): (r: seq<string>)
    ensures NoDuplicates(r)
    ensures forall x :: x in r <==> x in xs
  {
    if xs == [] then []
    else
      var u := Unique(xs[..|xs| - 1]);
      assert forall x :: x in xs <==> x in xs[..|xs| - 1] || x == xs[|xs| - 1];
      if xs[|xs| - 1] in u then u else u + [xs[|xs| - 1]]
  }

  /** The elements of `Unique(xs)` come in the order of their first occurrences in `xs`. */
  lemma {:induction false} UniqueFirstOccurrence(xs: seq<string>)
    ensures forall i, j :: 0 <= i < j < |Unique(xs)| ==>
              FirstIndex(xs, Unique(xs)[i]) < FirstIndex(xs, Unique(xs)[j])
  {
    if xs != [] {
      var init := xs[..|xs| - 1];
      var last := xs[|xs| - 1];
      var u := Unique(init);
      UniqueFirstOccurrence(init);
      forall y | y in init
        ensures FirstIndex(xs, y) == FirstIndex(init, y)
      {
        FirstIndexPrefix(init, xs, y);
      }
      if last !in u {
        forall y | y in u
          ensures FirstIndex(xs, y) < FirstIndex(xs, last)
        {
          var k := FirstIndex(xs, last);
          assert forall i :: 0 <= i < |init| ==> init[i] == xs[i];
          assert k == |xs| - 1;
        }
      }
    }
  }

  /** A first occurrence inside a prefix is the first occurrence in the whole sequence. */
  lemma FirstIndexPrefix(init: seq<string>, xs: seq<string>, y: string)
    requires |init| <= |xs| && init == xs[..|init|] && y in init
    ensures FirstIndex(xs, y) == FirstIndex(init, y)
  {
    var k := FirstIndex(init, y);
    var m := FirstIndex(xs, y);
    assert xs[k] == init[k];
  }

  /** The column of senders, one per record. */
  function SenderColumn(records: seq<Record>): (r: seq<string>)
    ensures |r| == |records|
    ensures forall i :: 0 <= i < |records| ==> r[i] == records[i].sender
  {
    seq(|records|, i requires 0 <= i < |records| => records[i].sender)
  }

  /** The sender list of the sidebar. */
  function Senders(records: seq<Record>): seq<string> {
    Unique(SenderColumn(records))
  }

  /** Each record's sender appears once in `Senders`, nothing else does, and they come in
      the order in which the senders first speak. */
  lemma SendersSpec(records: seq<Record>)
    ensures NoDuplicates(Senders(records))
    ensures forall s :: s in Senders(records) <==> exists i :: 0 <= i < |records| && records[i].sender == s
    ensures forall i, j :: 0 <= i < j < |Senders(records)| ==>
              FirstIndex(SenderColumn(records), Senders(records)[i])
              < FirstIndex(SenderColumn(records), Senders(records)[j])
  {
    var col := SenderColumn(records);
    UniqueFirstOccurrence(col);
    forall s
      ensures s in col <==> exists i :: 0 <= i < |records| && records[i].sender == s
    {
      if s in col {
        var i :| 0 <= i < |col| && col[i] == s;
        assert records[i].sender == s;
      }
    }
  }

  // ---------------------------------------------------------------- dates

  /** The calendar date of a timestamp (the `date` column). */
  datatype Date = Date(year: int, month: int, day: int)

  function DateOf(t: Timestamp): Date {
    Date(t.year, t.month, t.day)
  }

  /** Chronological order of dates. */
  predicate DateLe(a: Date, b: Date) {
    a.year < b.year
    || (a.year == b.year && (a.month < b.month || (a.month == b.month && a.day <= b.day)))
  }

  /** `DateLe` is a total order. */
  lemma DateLeTotalOrder(a: Date, b: Date, c: Date)
    ensures DateLe(a, a)
    ensures DateLe(a, b) || DateLe(b, a)
    ensures DateLe(a, b) && DateLe(b, a) ==> a == b
    ensures DateLe(a, b) && DateLe(b, c) ==> DateLe(a, c)
  {
  }

  /** The earliest date in the column (`min()`). */
  function MinDate(records: seq<Record>): (d: Date)
    requires records != []
    ensures exists i :: 0 <= i < |records| && d == DateOf(records[i].timestamp)
    ensures forall i :: 0 <= i < |records| ==> DateLe(d, DateOf(records[i].timestamp))
  {
    if |records| == 1 then DateOf(records[0].timestamp)
    else
      var rest := MinDate(records[1..]);
      var first := DateOf(records[0].timestamp);
      assert forall i :: 1 <= i < |records| ==> records[i] == records[1..][i - 1];
      if DateLe(first, rest) then first else rest
  }

  /** The latest date in the column (`max()`). */
  function MaxDate(records: seq<Record>): (d: Date)
    requires records != []
    ensures exists i :: 0 <= i < |records| && d == DateOf(records[i].timestamp)
    ensures forall i :: 0 <= i < |records| ==> DateLe(DateOf(records[i].timestamp), d)
  {
    if |records| == 1 then DateOf(records[0].timestamp)
    else
      var rest := MaxDate(records[1..]);
      var first := DateOf(records[0].timestamp);
      assert forall i :: 1 <= i < |records| ==> records[i] == records[1..][i - 1];
      if DateLe(rest, first) then first else rest
  }

  /** What the date picker returns: a pair of dates, or a single date. */
  datatype DatePick = Span(start: Date, end: Date) | Single(day: Date)

  /** The start and end of the window a pick describes. */
  function Bounds(pick: DatePick): (Date, Date) {
    match pick
    case Span(start, end) => (start, end)
    case Single(day) => (day, day)
  }

  // ---------------------------------------------------------------- filter

  /** The elements of `xs` that `keep` accepts, in order (a boolean mask). */
  function Where<T>(xs: seq<T>, keep: T -> bool): (r: seq<T>)
    ensures |r| <= |xs|
  {
    if xs == [] then [] else (if keep(xs[0]) then [xs[0]] else []) + Where(xs[1..], keep)
  }

  /** `a` is `b` with some elements left out and the rest in order. */
  predicate IsSubsequence<T(==)>(a: seq<T>, b: seq<T>) {
    if a == [] then true
    else if b == [] then false
    else if a[0] == b[0] then IsSubsequence(a[1..], b[1..])
    else IsSubsequence(a, b[1..])
  }

  /** A mask keeps an ordered selection of the elements, exactly those it accepts, each
      as many times as it occurs. */
  lemma {:induction false} WhereSpec<T>(xs: seq<T>, keep: T -> bool)
    ensures IsSubsequence(Where(xs, keep), xs)
    ensures forall x :: x in Where(xs, keep) <==> x in xs && keep(x)
    ensures forall x :: multiset(Where(xs, keep))[x] == if keep(x) then multiset(xs)[x] else 0
  {
    WhereCount(xs, keep);
    if xs != [] {
      WhereSpec(xs[1..], keep);
      var rest := Where(xs[1..], keep);
      if keep(xs[0]) {
        assert ([xs[0]] + rest)[1..] == rest;
      } else {
        assert [] + rest == rest;
        SubsequenceDrop(rest, xs);
      }
      assert forall x :: x in xs <==> x == xs[0] || x in xs[1..];
    }
  }

  /** How often a mask keeps each element: as often as it occurs, or never. */
  lemma {:induction false} WhereCount<T>(xs: seq<T>, keep: T -> bool)
    ensures forall x :: multiset(Where(xs, keep))[x] == if keep(x) then multiset(xs)[x] else 0
  {
    if xs != [] {
      WhereCount(xs[1..], keep);
      var rest := Where(xs[1..], keep);
      assert xs == [xs[0]] + xs[1..];
      assert multiset(xs) == multiset([xs[0]]) + multiset(xs[1..]);
      if keep(xs[0]) {
        assert Where(xs, keep) == [xs[0]] + rest;
      } else {
        assert Where(xs, keep) == rest;
      }
    }
  }

  /** Leaving out one more element of `b` keeps `a` a subsequence of what remains ... */
  lemma {:induction false} SubsequenceDrop<T>(a: seq<T>, b: seq<T>)
    requires b != [] && IsSubsequence(a, b[1..])
    ensures IsSubsequence(a, b)
    decreases |b|, 0
  {
    if a != [] && a[0] == b[0] {
      SubsequenceTail(a, b[1..]);
    }
  }

  /** ... and so does leaving out the first element of `a`. */
  lemma {:induction false} SubsequenceTail<T>(a: seq<T>, c: seq<T>)
    requires a != [] && IsSubsequence(a, c)
    ensures IsSubsequence(a[1..], c)
    decreases |c|, 1
  {
    if a[0] != c[0] {
      SubsequenceTail(a, c[1..]);
    }
    SubsequenceDrop(a[1..], c);
  }

  /** A mask that accepts everything keeps everything. */
  lemma {:induction false} WhereAll<T>(xs: seq<T>, keep: T -> bool)
    requires forall i :: 0 <= i < |xs| ==> keep(xs[i])
    ensures Where(xs, keep) == xs
  {
    if xs != [] {
      WhereAll(xs[1..], keep);
      assert [xs[0]] + xs[1..] == xs;
    }
  }

  /** Applying one mask after another is applying both at once. */
  lemma {:induction false} WhereWhere<T>(xs: seq<T>, p: T -> bool, q: T -> bool, both: T -> bool)
    requires forall i :: 0 <= i < |xs| ==> both(xs[i]) == (p(xs[i]) && q(xs[i]))
    ensures Where(Where(xs, p), q) == Where(xs, both)
  {
    if xs != [] {
      WhereWhere(xs[1..], p, q, both);
      var rest := Where(xs[1..], p);
      if p(xs[0]) {
        assert ([xs[0]] + rest)[0] == xs[0];
        assert ([xs[0]] + rest)[1..] == rest;
      } else {
        assert [] + rest == rest;
      }
    }
  }

  /** The first mask: selected sender, date within `start` … `end`. */
  predicate InWindow(r: Record, selected: seq<string>, start: Date, end: Date) {
    r.sender in selected && DateLe(start, DateOf(r.timestamp)) && DateLe(DateOf(r.timestamp), end)
  }

  /** The second mask: the message contains the query, ignoring letter case. */
  predicate Mentions(r: Record, query: string): (b: bool)
    ensures query == [] ==> b
  {
    Contains(LowerStr(r.message), LowerStr(query))
  }

  /** Whether a record is shown, all conditions together. */
  predicate Shown(r: Record, selected: seq<string>, start: Date, end: Date, query: string) {
    InWindow(r, selected, start, end) && (query == [] || Mentions(r, query))
  }

  function WindowMask(selected: seq<string>, start: Date, end: Date): Record -> bool {
    r => InWindow(r, selected, start, end)
  }

  function SearchMask(query: string): Record -> bool {
    r => Mentions(r, query)
  }

  function ShownMask(selected: seq<string>, start: Date, end: Date, query: string): Record -> bool {
    r => Shown(r, selected, start, end, query)
  }

  /** The records the page displays: the window mask, then the search mask when a query
      was typed. */
  function Filter(records: seq<Record>, selected: seq<string>, start: Date, end: Date,
                  query: string): (r: seq<Record>)
    ensures |r| <= |records|
  {
    var windowed := Where(records, WindowMask(selected, start, end));
    if query != [] then Where(windowed, SearchMask(query)) else windowed
  }

  /** The two masks select the records that meet every condition. */
  lemma FilterIsShown(records: seq<Record>, selected: seq<string>, start: Date, end: Date,
                      query: string)
    ensures Filter(records, selected, start, end, query)
            == Where(records, ShownMask(selected, start, end, query))
  {
    if query != [] {
      WhereWhere(records, WindowMask(selected, start, end), SearchMask(query),
                 ShownMask(selected, start, end, query));
    } else {
      WhereSame(records, WindowMask(selected, start, end), ShownMask(selected, start, end, query));
    }
  }

  /** Masks that agree on every element select the same elements. */
  lemma {:induction false} WhereSame<T>(xs: seq<T>, p: T -> bool, q: T -> bool)
    requires forall i :: 0 <= i < |xs| ==> p(xs[i]) == q(xs[i])
    ensures Where(xs, p) == Where(xs, q)
  {
    if xs != [] {
      WhereSame(xs[1..], p, q);
    }
  }

  /** The filtered records are an ordered selection of the records: exactly those shown. */
  lemma FilterSpec(records: seq<Record>, selected: seq<string>, start: Date, end: Date,
                   query: string)
    ensures IsSubsequence(Filter(records, selected, start, end, query), records)
    ensures forall r :: r in Filter(records, selected, start, end, query)
                        <==> r in records && Shown(r, selected, start, end, query)
    ensures forall r :: multiset(Filter(records, selected, start, end, query))[r]
                        == if Shown(r, selected, start, end, query) then multiset(records)[r] else 0
  {
    FilterIsShown(records, selected, start, end, query);
    WhereSpec(records, ShownMask(selected, start, end, query));
  }

  /** With every sender selected, the whole date range and no query, nothing is hidden. */
  lemma FilterDefaults(records: seq<Record>)
    requires records != []
    ensures Filter(records, Senders(records), MinDate(records), MaxDate(records), []) == records
  {
    SendersSpec(records);
    var selected := Senders(records);
    forall i | 0 <= i < |records|
      ensures InWindow(records[i], selected, MinDate(records), MaxDate(records))
    {
      assert records[i].sender in selected;
    }
    WhereAll(records, WindowMask(selected, MinDate(records), MaxDate(records)));
  }

  /** Picking a single date shows the records of that date and no others. */
  lemma FilterSingleDay(records: seq<Record>, selected: seq<string>, day: Date, query: string)
    ensures var (start, end) := Bounds(Single(day));
            forall r :: r in Filter(records, selected, start, end, query)
                        <==> r in records && DateOf(r.timestamp) == day && r.sender in selected
                             && (query == [] || Mentions(r, query))
    ensures var (start, end) := Bounds(Single(day));
            forall r :: multiset(Filter(records, selected, start, end, query))[r]
                        == if DateOf(r.timestamp) == day && r.sender in selected
                              && (query == [] || Mentions(r, query))
                           then multiset(records)[r] else 0
  {
    FilterSpec(records, selected, day, day, query);
    forall r: Record
      ensures DateLe(day, DateOf(r.timestamp)) && DateLe(DateOf(r.timestamp), day)
              <==> DateOf(r.timestamp) == day
    {
      DateLeTotalOrder(day, DateOf(r.timestamp), day);
    }
  }

  /** The search ignores letter case in the query as well as in the message. */
  lemma MentionsIgnoresCase(r: Record, query: string)
    ensures Mentions(r, UpperStr(query)) == Mentions(r, query)
    ensures Mentions(r, LowerStr(query)) == Mentions(r, query)
    ensures Mentions(r.(message := UpperStr(r.message)), query) == Mentions(r, query)
    ensures Mentions(r.(message := LowerStr(r.message)), query) == Mentions(r, query)
  {
    assert LowerStr(UpperStr(r.message)) == LowerStr(r.message);
    assert LowerStr(LowerStr(r.message)) == LowerStr(r.message);
    assert LowerStr(UpperStr(query)) == LowerStr(query);
    assert LowerStr(LowerStr(query)) == LowerStr(query);
  }

  /** Case is ignored outright: a message and a query that differ from the given ones only
      in letter case give the same result. */
  lemma MentionsUpToCase(r: Record, query: string, message: string, query2: string)
    requires LowerStr(message) == LowerStr(r.message) && LowerStr(query2) == LowerStr(query)
    ensures Mentions(r.(message := message), query2) == Mentions(r, query)
  {
  }

  // ---------------------------------------------------------------- time label

  function MeridiemLabel(hour: int): string {
    if hour < 12 then "AM" else "PM"
  }

  /** The time under a bubble: `%I:%M %p` with the leading zeros stripped. */
  function TimeLabel(t: Timestamp): string
    requires 0 <= t.hour < 24 && 0 <= t.minute < 60
  {
    StripLeading(Pad2(Hour12(t.hour)) + ":" + Pad2(t.minute) + " " + MeridiemLabel(t.hour), '0')
  }

  /** Stripping the zeros of `%I` leaves the hour in plain decimal notation. */
  lemma StripPaddedHour(n: nat, rest: string)
    requires 1 <= n <= 12 && rest != [] && rest[0] == ':'
    ensures StripLeading(Pad2(n) + rest, '0') == Unpadded(n) + rest
  {
    var u := Unpadded(n) + rest;
    assert u[0] != '0' by {
      if n < 10 { assert u[0] == DigitChar(n); } else { assert u[0] == Unpadded(n)[0]; }
    }
    if n < 10 {
      assert Pad2(n) + rest == ['0'] + u;
      StripOneLeading(u, '0');
    } else {
      assert Pad2(n) + rest == u;
      StripNoLeading(u, '0');
    }
  }

  lemma StripOneLeading(u: string, c: char)
    requires u != [] && u[0] != c
    ensures StripLeading([c] + u, c) == u
  {
    assert ([c] + u)[1..] == u;
    StripNoLeading(u, c);
  }

  lemma StripNoLeading(u: string, c: char)
    requires u != [] && u[0] != c
    ensures StripLeading(u, c) == u
  {
  }

  /** The label is the 12-hour clock hour without padding, two minute digits and AM or PM. */
  lemma TimeLabelShape(t: Timestamp)
    requires 0 <= t.hour < 24 && 0 <= t.minute < 60
    ensures TimeLabel(t) == Unpadded(Hour12(t.hour)) + ":" + Pad2(t.minute) + " " + MeridiemLabel(t.hour)
  {
    var n := Hour12(t.hour);
    assert 1 <= n <= 12;
    StripHourField(n, Pad2(t.minute), MeridiemLabel(t.hour));
  }

  /** `StripPaddedHour` for the label's layout. */
  lemma StripHourField(n: nat, minute: string, meridiem: string)
    requires 1 <= n <= 12
    ensures StripLeading(Pad2(n) + ":" + minute + " " + meridiem, '0')
            == Unpadded(n) + ":" + minute + " " + meridiem
  {
    var rest := ":" + minute + " " + meridiem;
    assert Pad2(n) + ":" + minute + " " + meridiem == Pad2(n) + rest;
    assert Unpadded(n) + ":" + minute + " " + meridiem == Unpadded(n) + rest;
    StripPaddedHour(n, rest);
  }

  /** The hour on the 12-hour clock, hour by hour. */
  lemma Hour12Cases(h: int)
    requires 0 <= h < 24
    ensures h == 0 || h == 12 ==> Hour12(h) == 12
    ensures 1 <= h <= 11 ==> Hour12(h) == h
    ensures 13 <= h ==> Hour12(h) == h - 12
  {
  }

  /** Midnight reads 12 AM. */
  lemma TimeLabelMidnight(t: Timestamp)
    requires t.hour == 0 && 0 <= t.minute < 60
    ensures TimeLabel(t) == "12:" + Pad2(t.minute) + " AM"
  {
    Hour12Cases(t.hour);
    assert MeridiemLabel(t.hour) == "AM";
    assert Unpadded(12) == "12";
    TimeLabelShape(t);
  }

  /** Morning hours read as they are. */
  lemma TimeLabelMorning(t: Timestamp)
    requires 1 <= t.hour <= 11 && 0 <= t.minute < 60
    ensures TimeLabel(t) == Unpadded(t.hour) + ":" + Pad2(t.minute) + " AM"
  {
    Hour12Cases(t.hour);
    assert MeridiemLabel(t.hour) == "AM";
    TimeLabelShape(t);
  }

  /** Noon reads 12 PM. */
  lemma TimeLabelNoon(t: Timestamp)
    requires t.hour == 12 && 0 <= t.minute < 60
    ensures TimeLabel(t) == "12:" + Pad2(t.minute) + " PM"
  {
    Hour12Cases(t.hour);
    assert MeridiemLabel(t.hour) == "PM";
    assert Unpadded(12) == "12";
    TimeLabelShape(t);
  }

  /** Afternoon hours move back by twelve. */
  lemma TimeLabelAfternoon(t: Timestamp)
    requires 13 <= t.hour <= 23 && 0 <= t.minute < 60
    ensures TimeLabel(t) == Unpadded(t.hour - 12) + ":" + Pad2(t.minute) + " PM"
  {
    Hour12Cases(t.hour);
    var k := t.hour - 12;
    assert Unpadded(Hour12(t.hour)) == Unpadded(k);
    assert MeridiemLabel(t.hour) == "PM";
    TimeLabelShape(t);
  }

  /** The hour on the 12-hour clock and the half of the day give back the hour. */
  lemma Hour12Halves(h: int, k: int)
    requires 0 <= h < 24 && 0 <= k < 24
    requires Hour12(h) == Hour12(k) && MeridiemLabel(h) == MeridiemLabel(k)
    ensures h == k
  {
    assert "AM" != "PM";
  }

  /** Different times of day get different labels. */
  lemma TimeLabelInjective(t: Timestamp, u: Timestamp)
    requires 0 <= t.hour < 24 && 0 <= t.minute < 60
    requires 0 <= u.hour < 24 && 0 <= u.minute < 60
    requires TimeLabel(t) == TimeLabel(u)
    ensures t.hour == u.hour && t.minute == u.minute
  {
    var a, p, m := Unpadded(Hour12(t.hour)), Pad2(t.minute), MeridiemLabel(t.hour);
    var b, q, n := Unpadded(Hour12(u.hour)), Pad2(u.minute), MeridiemLabel(u.hour);
    assert |m| == 2 && |n| == 2;
    TimeLabelShape(t);
    TimeLabelShape(u);
    PartsInjective(a, p, m, b, q, n);
    assert Hour12(t.hour) == Value(a) == Value(b) == Hour12(u.hour);
    assert t.minute == Value(p) == Value(q) == u.minute;
    Hour12Halves(t.hour, u.hour);
  }

  /** An hour of at most two digits, a colon, two digits, a space and two letters split
      in one way only. */
  lemma PartsInjective(a: string, p: string, m: string, b: string, q: string, n: string)
    requires 1 <= |a| <= 2 && AllDigits(a) && 1 <= |b| <= 2 && AllDigits(b)
    requires |p| == 2 && |q| == 2 && |m| == 2 && |n| == 2
    requires a + ":" + p + " " + m == b + ":" + q + " " + n
    ensures a == b && p == q && m == n
  {
    var s := a + ":" + p + " " + m;
    assert s[|a|] == ':';
    assert |s| == |a| + 6 && |s| == |b| + 6;
    assert s[..|a|] == a && s[..|b|] == b;
    assert s[|a| + 1..|a| + 3] == p && s[|b| + 1..|b| + 3] == q;
    assert s[|a| + 4..] == m && s[|b| + 4..] == n;
  }

  /** A two-letter meridiem in capitals. */
  lemma UpperMeridiem(m: string)
    requires IsMeridiem(m)
    ensures UpperStr(m) == if IsPm(m) then "PM" else "AM"
  {
  }

  /** The 12-hour field that decoded to `hour` is `Hour12(hour)`. */
  lemma Hour12OfField(v: int, hour: int)
    requires 1 <= v <= 12 && 0 <= hour < 24 && hour % 12 == v % 12
    ensures Hour12(hour) == v
  {
  }

  /** A message written on the 12-hour clock is labelled with the hour and minute fields
      of its header line, the hour's leading zero removed and the meridiem in capitals. */
  lemma LabelOfTwelveHourHeader(h: Header, t: Timestamp)
    requires WellFormed(h) && h.meridiem.Some? && Decode(h) == Some(t)
    ensures TimeLabel(t) == StripLeading(h.hour, '0') + ":" + h.minute + " " + UpperStr(h.meridiem.value)
  {
    DecodeTwelveHour(h);
    assert IsValid(t);
    Hour12OfField(Value(h.hour), t.hour);
    UnpaddedOfDigits(h.hour);
    Pad2OfValue(h.minute);
    UpperMeridiem(h.meridiem.value);
    assert MeridiemLabel(t.hour) == UpperStr(h.meridiem.value);
    TimeLabelShape(t);
  }
}
