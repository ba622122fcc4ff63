/** The header-line pattern of `parse_chat`:
      ^(\d{1,2}/\d{1,2}/\d{2,4}), (\d{1,2}:\d{2})\s?(am|pm)? - (.*?): (.*)
    matched with re.match and IGNORECASE. The match is unique: each `\d{..}` run is
    followed by a literal that a digit cannot be, the four ways of reading `\s?(am|pm)?`
    exclude one another, the lazy `(.*?)` stops at the first `": "`, and the greedy `(.*)`
    stops at the first newline, since `.` does not match one. It is written below as a
    chain of stages. */
module HeaderPattern {
  import opened Wrappers
  import opened Text

  /** One successful match: the digit fields of the date and time groups, the text
      `\s?` consumed, the `(am|pm)` group, the sender group and the message group. */
  datatype Header = Header(
    day: string, month: string, year: string,
    hour: string, minute: string,
    gap: string, meridiem: Option<string>,
    sender: string, message: string)

  /** The first group, `dd/mm/yy`. */
  function DateGroup(h: Header): string {
    h.day + "/" + h.month + "/" + h.year
  }

  /** The second group, `hh:mm`. */
  function TimeGroup(h: Header): string {
    h.hour + ":" + h.minute
  }

  /** `am` or `pm`, in any case. */
  predicate IsMeridiem(s: string) {
    |s| == 2 && (s[0] in "aApP") && (s[1] in "mM")
  }

  function MeridiemText(m: Option<string>): string {
    if m.Some? then m.value else ""
  }

  /** The language of the pattern: what each part of a match may contain. */
  predicate WellFormed(h: Header) {
    && AllDigits(h.day) && 1 <= |h.day| <= 2
    && AllDigits(h.month) && 1 <= |h.month| <= 2
    && AllDigits(h.year) && 2 <= |h.year| <= 4
    && AllDigits(h.hour) && 1 <= |h.hour| <= 2
    && AllDigits(h.minute) && |h.minute| == 2
    && (h.gap == [] || (|h.gap| == 1 && IsSpace(h.gap[0])))
    && (h.meridiem.Some? ==> IsMeridiem(h.meridiem.value))
    && NoNewline(h.sender) && !HasColonSpace(h.sender)
    && NoNewline(h.message)
  }

  /** The text a match covers, followed by `tail`, built from the back. */
  function BodyText(h: Header, tail: string): string {
    h.sender + (": " + (h.message + tail))
  }

  function SeparatorText(h: Header, tail: string): string {
    h.gap + (MeridiemText(h.meridiem) + (" - " + BodyText(h, tail)))
  }

  function TimeText(h: Header, tail: string): string {
    h.hour + (":" + (h.minute + SeparatorText(h, tail)))
  }

  function LineText(h: Header, tail: string): string {
    h.day + ("/" + (h.month + ("/" + (h.year + (", " + TimeText(h, tail))))))
  }

  /** The text a match covers. */
  function Render(h: Header): string {
    LineText(h, [])
  }

  lemma RenderTail(h: Header, tail: string)
    ensures LineText(h, tail) == Render(h) + tail
  {
    assert BodyText(h, tail) == BodyText(h, []) + tail;
    assert SeparatorText(h, tail) == SeparatorText(h, []) + tail;
    assert TimeText(h, tail) == TimeText(h, []) + tail;
  }

  /** A maximal run of `lo` to `hi` digits, and what follows it. */
  function Digits(s: string, lo: nat, hi: nat): (r: Option<(string, string)>)
    ensures r.Some? ==> s == r.value.0 + r.value.1 && AllDigits(r.value.0)
                        && lo <= |r.value.0| <= hi
                        && (r.value.1 == [] || !IsDigit(r.value.1[0]))
  {
    var n := DigitRun(s);
    if lo <= n <= hi then Some((s[..n], s[n..])) else None
  }

  /** The text after the literal `lit`, if `s` starts with it. */
  function Literal(s: string, lit: string): (r: Option<string>)
    ensures r.Some? ==> s == lit + r.value
  {
    if |lit| <= |s| && s[..|lit|] == lit then Some(s[|lit|..]) else None
  }

  /** `\d{1,2}/\d{1,2}/\d{2,4}, ` : (day, month, year, rest). */
  function MatchDate(s: string): (r: Option<(string, string, string, string)>)
    ensures r.Some? ==>
      && s == r.value.0 + ("/" + (r.value.1 + ("/" + (r.value.2 + (", " + r.value.3)))))
      && AllDigits(r.value.0) && 1 <= |r.value.0| <= 2
      && AllDigits(r.value.1) && 1 <= |r.value.1| <= 2
      && AllDigits(r.value.2) && 2 <= |r.value.2| <= 4
  {
    var d :- Digits(s, 1, 2);
    var r1 :- Literal(d.1, "/");
    var m :- Digits(r1, 1, 2);
    var r2 :- Literal(m.1, "/");
    var y :- Digits(r2, 2, 4);
    var r3 :- Literal(y.1, ", ");
    Some((d.0, m.0, y.0, r3))
  }

  /** `\d{1,2}:\d{2}` : (hour, minute, rest). */
  function MatchTime(s: string): (r: Option<(string, string, string)>)
    ensures r.Some? ==>
      && s == r.value.0 + (":" + (r.value.1 + r.value.2))
      && AllDigits(r.value.0) && 1 <= |r.value.0| <= 2
      && AllDigits(r.value.1) && |r.value.1| == 2
  {
    var h :- Digits(s, 1, 2);
    var r :- Literal(h.1, ":");
    if |r| >= 2 && IsDigit(r[0]) && IsDigit(r[1]) then
      assert r == r[..2] + r[2..];
      Some((h.0, r[..2], r[2..]))
    else None
  }

  /** `\s?(am|pm)? - ` : (gap, meridiem, rest), alternatives in the order the regex tries them. */
  function MatchSeparator(s: string): (r: Option<(string, Option<string>, string)>)
    ensures r.Some? ==>
      && s == r.value.0 + (MeridiemText(r.value.1) + (" - " + r.value.2))
      && (r.value.0 == [] || (|r.value.0| == 1 && IsSpace(r.value.0[0])))
      && (r.value.1.Some? ==> IsMeridiem(r.value.1.value))
  {
    if |s| >= 6 && IsSpace(s[0]) && IsMeridiem(s[1..3]) && s[3..6] == " - " then
      Some((s[..1], Some(s[1..3]), s[6..]))
    else if |s| >= 4 && IsSpace(s[0]) && s[1..4] == " - " then
      Some((s[..1], None, s[4..]))
    else if |s| >= 5 && IsMeridiem(s[..2]) && s[2..5] == " - " then
      Some(([], Some(s[..2]), s[5..]))
    else if |s| >= 3 && s[..3] == " - " then
      Some(([], None, s[3..]))
    else
      None
  }

  /** `(.*?): ` : the shortest sender before a `": "`; `.` does not match a newline. */
  function SplitSender(s: string): (r: Option<(string, string)>)
    ensures r.Some? ==> s == r.value.0 + (": " + r.value.1)
                        && NoNewline(r.value.0) && !HasColonSpace(r.value.0)
  {
    if |s| < 2 || s[0] == '\n' then None
    else if s[0] == ':' && s[1] == ' ' then Some(([], s[2..]))
    else
      match SplitSender(s[1..])
      case None => None
      case Some(p) =>
        var r := ([s[0]] + p.0, p.1);
        assert s[1..] == p.0 + (": " + p.1);
        Some(r)
  }

  /** Where `(.*)` stops: at the first newline or at the end. */
  function LineEnd(s: string): (n: nat)
    ensures n <= |s| && NoNewline(s[..n]) && (n == |s| || s[n] == '\n')
  {
    if s == [] || s[0] == '\n' then 0
    else
      var n := 1 + LineEnd(s[1..]);
      assert s[..n] == [s[0]] + s[1..][..n - 1];
      n
  }

  /** re.match of the header pattern against a (stripped) line. A match means that the
      line starts with the text the match covers, that this text is in the pattern's
      language, and that it runs up to a newline or to the end of the line. */
  function MatchHeader(line: string): (r: Option<Header>)
    ensures r.Some? ==> WellFormed(r.value)
    ensures r.Some? ==> exists tail :: line == Render(r.value) + tail && (tail == [] || tail[0] == '\n')
  {
    var date :- MatchDate(line);
    var time :- MatchTime(date.3);
    var sep :- MatchSeparator(time.2);
    var body :- SplitSender(sep.2);
    var n := LineEnd(body.1);
    var h := Header(date.0, date.1, date.2, time.0, time.1, sep.0, sep.1, body.0, body.1[..n]);
    var tail := body.1[n..];
    MatchedText(line, date, time, sep, body, h, tail);
    Some(h)
  }

  /** The pattern is anchored at a digit: a line that does not start with one is no header. */
  lemma NoDigitNoHeader(line: string)
    requires line == [] || !IsDigit(line[0])
    ensures MatchHeader(line) == None
  {
    assert DigitRun(line) == 0;
    assert Digits(line, 1, 2) == None;
  }

  /** The stages of a match, put back together. */
  lemma MatchedText(line: string, date: (string, string, string, string),
                    time: (string, string, string), sep: (string, Option<string>, string),
                    body: (string, string), h: Header, tail: string)
    requires line == date.0 + ("/" + (date.1 + ("/" + (date.2 + (", " + date.3)))))
    requires date.3 == time.0 + (":" + (time.1 + time.2))
    requires time.2 == sep.0 + (MeridiemText(sep.1) + (" - " + sep.2))
    requires sep.2 == body.0 + (": " + body.1)
    requires |h.message| <= |body.1| && h.message == body.1[..|h.message|] && tail == body.1[|h.message|..]
    requires h == Header(date.0, date.1, date.2, time.0, time.1, sep.0, sep.1, body.0, h.message)
    ensures line == Render(h) + tail
  {
    assert body.1 == h.message + tail;
    RenderTail(h, tail);
  }

  lemma DigitsOf(a: string, b: string, lo: nat, hi: nat)
    requires AllDigits(a) && lo <= |a| <= hi
    requires b == [] || !IsDigit(b[0])
    ensures Digits(a + b, lo, hi) == Some((a, b))
  {
    DigitRunOf(a, b);
    assert (a + b)[..|a|] == a && (a + b)[|a|..] == b;
  }

  lemma LiteralOf(lit: string, b: string)
    ensures Literal(lit + b, lit) == Some(b)
  {
    assert (lit + b)[..|lit|] == lit && (lit + b)[|lit|..] == b;
  }

  lemma MatchDateOf(day: string, month: string, year: string, rest: string)
    requires AllDigits(day) && 1 <= |day| <= 2
    requires AllDigits(month) && 1 <= |month| <= 2
    requires AllDigits(year) && 2 <= |year| <= 4
    ensures MatchDate(day + ("/" + (month + ("/" + (year + (", " + rest))))))
            == Some((day, month, year, rest))
  {
    DigitsOf(day, "/" + (month + ("/" + (year + (", " + rest)))), 1, 2);
    LiteralOf("/", month + ("/" + (year + (", " + rest))));
    DigitsOf(month, "/" + (year + (", " + rest)), 1, 2);
    LiteralOf("/", year + (", " + rest));
    DigitsOf(year, ", " + rest, 2, 4);
    LiteralOf(", ", rest);
  }

  lemma MatchTimeOf(hour: string, minute: string, rest: string)
    requires AllDigits(hour) && 1 <= |hour| <= 2
    requires AllDigits(minute) && |minute| == 2
    ensures MatchTime(hour + (":" + (minute + rest))) == Some((hour, minute, rest))
  {
    DigitsOf(hour, ":" + (minute + rest), 1, 2);
    LiteralOf(":", minute + rest);
    assert (minute + rest)[..2] == minute && (minute + rest)[2..] == rest;
  }

  lemma MatchSeparatorOf(gap: string, meridiem: Option<string>, rest: string)
    requires gap == [] || (|gap| == 1 && IsSpace(gap[0]))
    requires meridiem.Some? ==> IsMeridiem(meridiem.value)
    ensures MatchSeparator(gap + (MeridiemText(meridiem) + (" - " + rest))) == Some((gap, meridiem, rest))
  {
    if gap != [] && meridiem.Some? {
      SpaceMeridiemOf(gap, meridiem.value, rest);
    } else if gap != [] {
      SpaceOnlyOf(gap, rest);
      assert MeridiemText(meridiem) + (" - " + rest) == " - " + rest;
    } else if meridiem.Some? {
      MeridiemOnlyOf(meridiem.value, rest);
      assert gap + (MeridiemText(meridiem) + (" - " + rest)) == meridiem.value + (" - " + rest);
    } else {
      BareOf(rest);
      assert gap + (MeridiemText(meridiem) + (" - " + rest)) == " - " + rest;
    }
  }

  lemma BareOf(rest: string)
    ensures MatchSeparator(" - " + rest) == Some(([], None, rest))
  {
    var s := " - " + rest;
    assert s[..3] == " - " && s[3..] == rest;
    assert s[0] == ' ' && s[1] == '-';
  }

  lemma SpaceMeridiemOf(gap: string, m: string, rest: string)
    requires |gap| == 1 && IsSpace(gap[0]) && IsMeridiem(m)
    ensures MatchSeparator(gap + (m + (" - " + rest))) == Some((gap, Some(m), rest))
  {
    var s := gap + (m + (" - " + rest));
    assert s[..1] == gap && s[1..3] == m && s[3..6] == " - " && s[6..] == rest;
  }

  lemma SpaceOnlyOf(gap: string, rest: string)
    requires |gap| == 1 && IsSpace(gap[0])
    ensures MatchSeparator(gap + (" - " + rest)) == Some((gap, None, rest))
  {
    var s := gap + (" - " + rest);
    assert s[..1] == gap && s[1..4] == " - " && s[4..] == rest;
    assert !IsMeridiem(s[1..3]);
  }

  lemma MeridiemOnlyOf(m: string, rest: string)
    requires IsMeridiem(m)
    ensures MatchSeparator(m + (" - " + rest)) == Some(([], Some(m), rest))
  {
    var s := m + (" - " + rest);
    assert s[..2] == m && s[2..5] == " - " && s[5..] == rest;
    assert !IsSpace(s[0]);
  }


  lemma {:induction false} SplitSenderOf(sender: string, rest: string)
    requires NoNewline(sender) && !HasColonSpace(sender)
    ensures SplitSender(sender + (": " + rest)) == Some((sender, rest))
  {
    var s := sender + (": " + rest);
    if sender == [] {
      assert s == ": " + rest;
      assert s[2..] == rest;
    } else {
      assert s[1..] == sender[1..] + (": " + rest);
      assert !HasColonSpace(sender[1..]);
      SplitSenderOf(sender[1..], rest);
      assert !(s[0] == ':' && s[1] == ' ') by {
        if |sender| >= 2 {
          assert !(sender[0] == ':' && sender[1] == ' ');
        }
      }
      assert [s[0]] + sender[1..] == sender;
    }
  }

  lemma {:induction false} LineEndOf(message: string, tail: string)
    requires NoNewline(message)
    requires tail == [] || tail[0] == '\n'
    ensures LineEnd(message + tail) == |message|
  {
    if message != [] {
      assert (message + tail)[1..] == message[1..] + tail;
      LineEndOf(message[1..], tail);
    } else {
      assert message + tail == tail;
    }
  }

  /** Round trip: the match of a text in the pattern's language gives back its parts,
      whatever follows a newline after it. */
  lemma MatchHeaderRender(h: Header, tail: string)
    requires WellFormed(h)
    requires tail == [] || tail[0] == '\n'
    ensures MatchHeader(Render(h) + tail) == Some(h)
  {
    RenderTail(h, tail);
    MatchDateOf(h.day, h.month, h.year, TimeText(h, tail));
    MatchTimeOf(h.hour, h.minute, SeparatorText(h, tail));
    MatchSeparatorOf(h.gap, h.meridiem, BodyText(h, tail));
    SplitSenderOf(h.sender, h.message + tail);
    LineEndOf(h.message, tail);
    assert (h.message + tail)[..|h.message|] == h.message;
  }
}
