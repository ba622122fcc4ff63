/** Whole transcripts built from rendered header lines, and worked examples. */
module Scenarios {
  import opened Wrappers
  import opened Text
  import opened HeaderPattern
  import opened Timestamps
  import opened Transcript

  /** A stripped line that is exactly the text of a match is classified by its timestamp. */
  lemma ClassifyRendered(h: Header)
    requires WellFormed(h) && IsStripped(Render(h))
    ensures Classify(Render(h)) == match Decode(h)
      case Some(t) => Start(Record(t, Strip(h.sender), Strip(h.message)))
      case None => Skipped
  {
    StripStripped(Render(h));
    MatchHeaderRender(h, []);
    assert Render(h) + [] == Render(h);
  }

  /** A header line whose timestamp decodes, followed by lines that are not headers, adds
      exactly one record: its sender, and its message joined with the stripped
      continuation lines by newlines. */
  lemma ParseRenderedMessage(lines: seq<string>, h: Header, t: Timestamp, conts: seq<string>)
    requires WellFormed(h) && IsStripped(Render(h)) && Decode(h) == Some(t)
    requires AllContinuations(conts)
    ensures Parse(lines + [Render(h)] + conts)
            == Parse(lines) + [Record(t, Strip(h.sender), JoinLines([Strip(h.message)] + StripAll(conts)))]
  {
    ClassifyRendered(h);
    ParseMessageBody(lines, Render(h), conts);
  }

  /** A header line whose timestamp does not decode leaves the transcript as it was. */
  lemma ParseRenderedDropped(lines: seq<string>, h: Header)
    requires WellFormed(h) && IsStripped(Render(h)) && Decode(h) == None
    ensures Parse(lines + [Render(h)]) == Parse(lines)
  {
    ClassifyRendered(h);
    ParseSnoc(lines, Render(h));
  }

  /** The single-line instance of ParseRenderedMessage, phrased over the literal text. */
  lemma ParseOneLine(line: string, h: Header, t: Timestamp, sender: string, message: string)
    requires line == Render(h) && WellFormed(h) && IsStripped(line) && Decode(h) == Some(t)
    requires sender == h.sender && message == h.message
    requires IsStripped(sender) && IsStripped(message)
    ensures Parse([line]) == [Record(t, sender, message)]
  {
    ClassifyRendered(h);
    ParseStart([], line);
    assert [] + [line] == [line];
    StripStripped(sender);
    StripStripped(message);
  }

  // The header of "01/02/23, 10:30 am - Alice: Hello".

  lemma AliceText()
    ensures Render(Header("01", "02", "23", "10", "30", " ", Some("am"), "Alice", "Hello"))
            == "01/02/23, 10:30 am - Alice: Hello"
  {
    var s := Render(Header("01", "02", "23", "10", "30", " ", Some("am"), "Alice", "Hello"));
    assert |s| == 33;
    assert forall i :: 0 <= i < 33 ==> s[i] == "01/02/23, 10:30 am - Alice: Hello"[i];
  }

  lemma AliceFields()
    ensures WellFormed(Header("01", "02", "23", "10", "30", " ", Some("am"), "Alice", "Hello"))
    ensures IsStripped("01/02/23, 10:30 am - Alice: Hello") && IsStripped("Alice") && IsStripped("Hello")
  {
  }

  lemma AliceTime()
    ensures Decode(Header("01", "02", "23", "10", "30", " ", Some("am"), "Alice", "Hello"))
            == Some(Timestamp(2023, 2, 1, 10, 30))
  {
    TwoDigitValue("01");
    TwoDigitValue("02");
    TwoDigitValue("23");
    TwoDigitValue("10");
    TwoDigitValue("30");
  }

  /** "01/02/23, 10:30 am - Alice: Hello" gives one record: Alice, Hello, 1 February 2023 10:30. */
  lemma ScenarioSingleMessage()
    ensures Parse(["01/02/23, 10:30 am - Alice: Hello"])
            == [Record(Timestamp(2023, 2, 1, 10, 30), "Alice", "Hello")]
  {
    AliceText();
    AliceFields();
    AliceTime();
    ParseOneLine("01/02/23, 10:30 am - Alice: Hello",
                 Header("01", "02", "23", "10", "30", " ", Some("am"), "Alice", "Hello"),
                 Timestamp(2023, 2, 1, 10, 30), "Alice", "Hello");
  }

  /** The two-line instance of ParseRenderedMessage, phrased over the literal text. */
  lemma ParseTwoLines(line: string, h: Header, t: Timestamp, sender: string, message: string,
                      cont: string, text: string, joined: string)
    requires line == Render(h) && WellFormed(h) && IsStripped(line) && Decode(h) == Some(t)
    requires sender == h.sender && message == h.message
    requires IsStripped(sender) && IsStripped(message)
    requires MatchHeader(Strip(cont)).None? && text == Strip(cont)
    requires joined == message + "\n" + text
    ensures Parse([line, cont]) == [Record(t, sender, joined)]
  {
    StripStripped(sender);
    StripStripped(message);
    assert AllContinuations([cont]);
    ParseRenderedMessage([], h, t, [cont]);
    assert StripAll([cont]) == [text];
    assert [message] + [text] == [message, text];
    assert [] + [line] + [cont] == [line, cont];
  }

  /** A header line that does not decode, after a first line, leaves the transcript alone. */
  lemma ParseThenDropped(first: string, records: seq<Record>, line: string, h: Header)
    requires Parse([first]) == records
    requires line == Render(h) && WellFormed(h) && IsStripped(line) && Decode(h) == None
    ensures Parse([first, line]) == records
  {
    ParseRenderedDropped([first], h);
    assert [first] + [line] == [first, line];
  }

  lemma PlainText()
    ensures Strip("how are you?") == "how are you?"
    ensures MatchHeader("how are you?") == None
    ensures "Hello" + "\n" + "how are you?" == "Hello\nhow are you?"
  {
    var s := "how are you?";
    assert s[0] == 'h' && s[|s| - 1] == '?';
    StripStripped(s);
    NoDigitNoHeader(s);
  }

  /** A line that is not a header is joined to the open message with a newline. */
  lemma ScenarioContinuation()
    ensures Parse(["01/02/23, 10:30 am - Alice: Hello", "how are you?"])
            == [Record(Timestamp(2023, 2, 1, 10, 30), "Alice", "Hello\nhow are you?")]
  {
    AliceText();
    AliceFields();
    AliceTime();
    PlainText();
    ParseTwoLines("01/02/23, 10:30 am - Alice: Hello",
                  Header("01", "02", "23", "10", "30", " ", Some("am"), "Alice", "Hello"),
                  Timestamp(2023, 2, 1, 10, 30), "Alice", "Hello",
                  "how are you?", "how are you?", "Hello\nhow are you?");
  }

  // The header of "31/04/23, 10:31 am - Bob: Hi", whose date does not exist.

  lemma BobText()
    ensures Render(Header("31", "04", "23", "10", "31", " ", Some("am"), "Bob", "Hi"))
            == "31/04/23, 10:31 am - Bob: Hi"
  {
    var s := Render(Header("31", "04", "23", "10", "31", " ", Some("am"), "Bob", "Hi"));
    assert |s| == 28;
    assert forall i :: 0 <= i < 28 ==> s[i] == "31/04/23, 10:31 am - Bob: Hi"[i];
  }

  lemma BobFields()
    ensures WellFormed(Header("31", "04", "23", "10", "31", " ", Some("am"), "Bob", "Hi"))
    ensures IsStripped("31/04/23, 10:31 am - Bob: Hi")
  {
  }

  lemma BobTime()
    ensures Decode(Header("31", "04", "23", "10", "31", " ", Some("am"), "Bob", "Hi")) == None
  {
  }

  /** A line that matches the pattern but names 31 April is dropped, not appended. */
  lemma ScenarioBadDateDropped()
    ensures Parse(["01/02/23, 10:30 am - Alice: Hello", "31/04/23, 10:31 am - Bob: Hi"])
            == [Record(Timestamp(2023, 2, 1, 10, 30), "Alice", "Hello")]
  {
    ScenarioSingleMessage();
    BobText();
    BobFields();
    BobTime();
    ParseThenDropped("01/02/23, 10:30 am - Alice: Hello",
                     [Record(Timestamp(2023, 2, 1, 10, 30), "Alice", "Hello")],
                     "31/04/23, 10:31 am - Bob: Hi",
                     Header("31", "04", "23", "10", "31", " ", Some("am"), "Bob", "Hi"));
  }

  /** A first line that is not a header gives no record. */
  lemma ScenarioNoHeader()
    ensures Parse(["not a valid line"]) == []
  {
    var s := "not a valid line";
    assert s[0] == 'n' && s[|s| - 1] == 'e';
    ParseFirstPlain(s);
  }

  /** A stripped first line that does not start with a digit is dropped. */
  lemma ParseFirstPlain(line: string)
    requires IsStripped(line) && line != [] && !IsDigit(line[0])
    ensures Parse([line]) == []
  {
    StripStripped(line);
    NoDigitNoHeader(line);
    assert Classify(line) == Continuation(line);
    assert Kinds([line]) == [Continuation(line)];
    RunSnoc([], Continuation(line));
    assert [] + [Continuation(line)] == [Continuation(line)];
  }

  // The header of "01/02/23, 22:05 - Bob: a: b", in the 24-hour format.

  lemma NoteText()
    ensures Render(Header("01", "02", "23", "22", "05", "", None, "Bob", "a: b"))
            == "01/02/23, 22:05 - Bob: a: b"
  {
    var s := Render(Header("01", "02", "23", "22", "05", "", None, "Bob", "a: b"));
    assert |s| == 27;
    assert forall i :: 0 <= i < 27 ==> s[i] == "01/02/23, 22:05 - Bob: a: b"[i];
  }

  lemma NoteFields()
    ensures WellFormed(Header("01", "02", "23", "22", "05", "", None, "Bob", "a: b"))
    ensures IsStripped("01/02/23, 22:05 - Bob: a: b")
    ensures IsStripped("Bob") && IsStripped("a: b")
  {
    assert !HasColonSpace("Bob");
  }

  lemma NoteTime()
    ensures Decode(Header("01", "02", "23", "22", "05", "", None, "Bob", "a: b"))
            == Some(Timestamp(2023, 2, 1, 22, 5))
  {
    TwoDigitValue("01");
    TwoDigitValue("02");
    TwoDigitValue("23");
    TwoDigitValue("22");
    TwoDigitValue("05");
  }

  /** The sender stops at the first ": "; later ones belong to the message. */
  lemma ScenarioColonInMessage()
    ensures Parse(["01/02/23, 22:05 - Bob: a: b"])
            == [Record(Timestamp(2023, 2, 1, 22, 5), "Bob", "a: b")]
  {
    NoteText();
    NoteFields();
    NoteTime();
    ParseOneLine("01/02/23, 22:05 - Bob: a: b",
                 Header("01", "02", "23", "22", "05", "", None, "Bob", "a: b"),
                 Timestamp(2023, 2, 1, 22, 5), "Bob", "a: b");
  }

  // The header of "01/02/23, 10:30 - : hi", whose sender group is empty.

  lemma NamelessText()
    ensures Render(Header("01", "02", "23", "10", "30", "", None, "", "hi"))
            == "01/02/23, 10:30 - : hi"
  {
    var s := Render(Header("01", "02", "23", "10", "30", "", None, "", "hi"));
    assert |s| == 22;
    assert forall i :: 0 <= i < 22 ==> s[i] == "01/02/23, 10:30 - : hi"[i];
  }

  lemma NamelessFields()
    ensures WellFormed(Header("01", "02", "23", "10", "30", "", None, "", "hi"))
    ensures IsStripped("01/02/23, 10:30 - : hi") && IsStripped("") && IsStripped("hi")
  {
  }

  lemma NamelessTime()
    ensures Decode(Header("01", "02", "23", "10", "30", "", None, "", "hi"))
            == Some(Timestamp(2023, 2, 1, 10, 30))
  {
    TwoDigitValue("01");
    TwoDigitValue("02");
    TwoDigitValue("23");
    TwoDigitValue("10");
    TwoDigitValue("30");
  }

  /** The sender group may be empty: the line opens a record with an empty sender. */
  lemma ScenarioEmptySender()
    ensures Parse(["01/02/23, 10:30 - : hi"]) == [Record(Timestamp(2023, 2, 1, 10, 30), "", "hi")]
  {
    NamelessText();
    NamelessFields();
    NamelessTime();
    ParseOneLine("01/02/23, 10:30 - : hi", Header("01", "02", "23", "10", "30", "", None, "", "hi"),
                 Timestamp(2023, 2, 1, 10, 30), "", "hi");
  }

  // Header fields that no format accepts.

  /** Day 40 does not exist. */
  lemma RejectsDayForty()
    ensures Decode(Header("40", "02", "23", "10", "30", "", None, "A", "x")) == None
  {
  }

  /** April has 30 days. */
  lemma RejectsThirtyFirstApril()
    ensures Decode(Header("31", "04", "23", "10", "30", "", None, "A", "x")) == None
  {
  }

  /** 2023 is not a leap year. */
  lemma RejectsLeapDayOf2023()
    ensures Decode(Header("29", "02", "23", "10", "30", "", None, "A", "x")) == None
  {
    TwoDigitValue("29");
    TwoDigitValue("02");
    TwoDigitValue("23");
  }

  /** The pattern lets a four-digit year through, but the year field takes two digits. */
  lemma RejectsFourDigitYear()
    ensures Decode(Header("01", "02", "2023", "10", "30", "", None, "A", "x")) == None
  {
  }

  /** A 12-hour clock has no hour 13. */
  lemma RejectsThirteenPm()
    ensures Decode(Header("01", "02", "23", "13", "30", " ", Some("pm"), "A", "x")) == None
  {
  }

  /** A 24-hour clock has no hour 24. */
  lemma RejectsHourTwentyFour()
    ensures Decode(Header("01", "02", "23", "24", "00", "", None, "A", "x")) == None
  {
  }

  /** Minutes stop at 59. */
  lemma RejectsMinuteSixty()
    ensures Decode(Header("01", "02", "23", "10", "60", "", None, "A", "x")) == None
  {
  }

  /** Without a meridiem the hour is read on a 24-hour clock. */
  lemma AcceptsTwentyFourHour()
    ensures Decode(Header("29", "02", "24", "7", "05", "", None, "A", "x"))
            == Some(Timestamp(2024, 2, 29, 7, 5))
  {
    TwoDigitValue("29");
    TwoDigitValue("02");
    TwoDigitValue("24");
    TwoDigitValue("05");
  }

  /** The zero-padded 24-hour hour decodes to the same timestamp. */
  lemma AcceptsPaddedTwentyFourHour()
    ensures Decode(Header("29", "02", "24", "07", "05", "", None, "A", "x"))
            == Some(Timestamp(2024, 2, 29, 7, 5))
  {
    DecodeWithTimestamp(Header("", "", "", "", "", "", None, "A", "x"),
                        Timestamp(2024, 2, 29, 7, 5), false);
  }

  /** 12 am is midnight, on the first day of the earliest year the pivot allows. */
  lemma AcceptsMidnight()
    ensures Decode(Header("1", "1", "69", "12", "00", "", Some("AM"), "A", "x"))
            == Some(Timestamp(1969, 1, 1, 0, 0))
  {
  }

  /** 12 pm is noon, in the latest year the pivot allows. */
  lemma AcceptsNoon()
    ensures Decode(Header("1", "1", "68", "12", "00", "", Some("Pm"), "A", "x"))
            == Some(Timestamp(2068, 1, 1, 12, 0))
  {
  }
}
