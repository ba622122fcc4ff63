/** `parse_chat`: the line-by-line state machine that turns a transcript into records. */
module Transcript {
  import opened Wrappers
  import opened Text
  import opened HeaderPattern
  import opened Timestamps

  /** One row of the parsed table. */
  datatype Record = Record(timestamp: Timestamp, sender: string, message: string)

  /** What one input line does to the table. */
  datatype LineKind =
    | Start(record: Record)      // a header with a decodable timestamp
    | Skipped                    // a header whose timestamp both formats reject
    | Continuation(text: string) // any other line, stripped

  /** How the loop body treats a line: strip it, match the header pattern, decode. */
  function Classify(raw: string): LineKind {
    var line := Strip(raw);
    match MatchHeader(line)
    case Some(h) =>
      (match Decode(h)
       case Some(t) => Start(Record(t, Strip(h.sender), Strip(h.message)))
       case None => Skipped)
    case None => Continuation(line)
  }

  /** `f` applied to every element, in order. Used with the named function `Classify`;
      the other element-wise maps (`Heads`, `Continuations`, `StripAll`,
      `Viewer.SenderColumn`) are comprehensions of their own, because `MapSeq` over a lambda
      would leave the verifier comparing lambda values, which it does not do by extension. */
  function MapSeq<A, B>(f: A -> B, xs: seq<A>): (r: seq<B>)
    ensures |r| == |xs| && forall k :: 0 <= k < |xs| ==> r[k] == f(xs[k])
  {
    seq(|xs|, k requires 0 <= k < |xs| => f(xs[k]))
  }

  lemma MapSeqAppend<A, B>(f: A -> B, a: seq<A>, b: seq<A>)
    ensures MapSeq(f, a + b) == MapSeq(f, a) + MapSeq(f, b)
  {
    var l, r := MapSeq(f, a + b), MapSeq(f, a) + MapSeq(f, b);
    forall k | 0 <= k < |l| ensures l[k] == r[k] {
      if k < |a| { assert (a + b)[k] == a[k]; } else { assert (a + b)[k] == b[k - |a|]; }
    }
  }

  /** The kind of every line, in order. */
  function Kinds(lines: seq<string>): (r: seq<LineKind>)
    ensures |r| == |lines| && forall k :: 0 <= k < |lines| ==> r[k] == Classify(lines[k])
  {
    MapSeq(Classify, lines)
  }

  lemma KindsAppend(a: seq<string>, b: seq<string>)
    ensures Kinds(a + b) == Kinds(a) + Kinds(b)
  {
    MapSeqAppend(Classify, a, b);
  }

  /** The table after one more line. */
  function Step(records: seq<Record>, kind: LineKind): seq<Record> {
    match kind
    case Start(r) => records + [r]
    case Skipped => records
    case Continuation(text) =>
      if records == [] then records
      else
        var last := records[|records| - 1];
        records[|records| - 1 := last.(message := last.message + "\n" + text)]
  }

  /** The table after a run of classified lines, taken in order. */
  function Run(kinds: seq<LineKind>): seq<Record> {
    if kinds == [] then []
    else Step(Run(kinds[..|kinds| - 1]), kinds[|kinds| - 1])
  }

  /** The table `parse_chat` returns. */
  function Parse(lines: seq<string>): seq<Record> {
    Run(Kinds(lines))
  }

  lemma RunSnoc(kinds: seq<LineKind>, kind: LineKind)
    ensures Run(kinds + [kind]) == Step(Run(kinds), kind)
  {
    assert (kinds + [kind])[..|kinds|] == kinds;
  }

  /** Parsing one more line is one more step. */
  lemma ParseSnoc(lines: seq<string>, raw: string)
    ensures Parse(lines + [raw]) == Step(Parse(lines), Classify(raw))
  {
    KindsAppend(lines, [raw]);
    RunSnoc(Kinds(lines), Classify(raw));
  }

  // ---- Classification of a single line ----

  /** A record opened by a header has a valid timestamp and sender and message with no
      whitespace around them; a continuation is the stripped line. */
  predicate KindValid(raw: string, kind: LineKind) {
    && (kind.Start? ==> IsValid(kind.record.timestamp) && IsStripped(kind.record.sender)
                        && IsStripped(kind.record.message))
    && (kind.Continuation? ==> kind.text == Strip(raw))
  }

  lemma ClassifyValid(raw: string)
    ensures KindValid(raw, Classify(raw))
  {
    match MatchHeader(Strip(raw))
    case Some(h) => {
      StripSpec(h.sender);
      StripSpec(h.message);
    }
    case None => {}
  }

  /** A line is a continuation exactly when its stripped text does not match the header
      pattern; it is skipped exactly when it matches but its timestamp does not decode. */
  lemma ClassifyKinds(raw: string)
    ensures Classify(raw).Continuation? <==> MatchHeader(Strip(raw)).None?
    ensures Classify(raw).Skipped? <==>
              MatchHeader(Strip(raw)).Some? && Decode(MatchHeader(Strip(raw)).value).None?
  {
  }

  // ---- Properties of the whole table ----

  /** A record a header line opens has a valid timestamp and a stripped sender. */
  predicate OpensValid(kind: LineKind) {
    kind.Start? ==> IsValid(kind.record.timestamp) && IsStripped(kind.record.sender)
  }

  lemma {:induction false} RunRecordsValid(kinds: seq<LineKind>)
    requires forall k :: 0 <= k < |kinds| ==> OpensValid(kinds[k])
    ensures forall r :: r in Run(kinds) ==> IsValid(r.timestamp) && IsStripped(r.sender)
  {
    if kinds != [] {
      var init := kinds[..|kinds| - 1];
      RunRecordsValid(init);
      var rs := Run(init);
      assert OpensValid(kinds[|kinds| - 1]);
      if kinds[|kinds| - 1].Continuation? && rs != [] {
        forall r | r in Run(kinds) ensures IsValid(r.timestamp) && IsStripped(r.sender) {
          var k :| 0 <= k < |Run(kinds)| && Run(kinds)[k] == r;
          assert r.timestamp == rs[k].timestamp && r.sender == rs[k].sender;
        }
      }
    }
  }

  /** Every record has a valid timestamp and a sender with no surrounding whitespace. */
  lemma ParseRecordsValid(lines: seq<string>)
    ensures forall r :: r in Parse(lines) ==> IsValid(r.timestamp) && IsStripped(r.sender)
  {
    forall k | 0 <= k < |lines| ensures OpensValid(Kinds(lines)[k]) {
      ClassifyValid(lines[k]);
    }
    RunRecordsValid(Kinds(lines));
  }

  /** Timestamp and sender of each record: what a header line fixes once and for all. */
  function Heads(records: seq<Record>): (r: seq<(Timestamp, string)>)
    ensures |r| == |records|
    ensures forall k :: 0 <= k < |records| ==> r[k] == (records[k].timestamp, records[k].sender)
  {
    seq(|records|, k requires 0 <= k < |records| => (records[k].timestamp, records[k].sender))
  }

  /** The records the header lines open, in the order of those lines. */
  function Opened(kinds: seq<LineKind>): (r: seq<Record>)
    ensures |r| <= |kinds|
  {
    if kinds == [] then []
    else
      var init := Opened(kinds[..|kinds| - 1]);
      if kinds[|kinds| - 1].Start? then init + [kinds[|kinds| - 1].record] else init
  }

  lemma {:induction false} RunHeads(kinds: seq<LineKind>)
    ensures Heads(Run(kinds)) == Heads(Opened(kinds))
    ensures |Run(kinds)| == |Opened(kinds)|
  {
    if kinds != [] {
      var init := kinds[..|kinds| - 1];
      RunHeads(init);
      var rs := Run(init);
      match kinds[|kinds| - 1]
      case Start(r) => {
        assert Heads(rs + [r]) == Heads(rs) + [(r.timestamp, r.sender)];
        assert Heads(Opened(init) + [r]) == Heads(Opened(init)) + [(r.timestamp, r.sender)];
      }
      case Skipped => {}
      case Continuation(text) => {
        if rs != [] {
          assert Heads(Run(kinds)) == Heads(rs);
        }
      }
    }
  }

  /** Output size and order: one record per header line with a valid timestamp, in input
      order, with no reordering and no merging; continuation lines change only messages. */
  lemma ParseHeads(lines: seq<string>)
    ensures Heads(Parse(lines)) == Heads(Opened(Kinds(lines)))
    ensures |Parse(lines)| == |Opened(Kinds(lines))| <= |lines|
  {
    RunHeads(Kinds(lines));
  }

  /** What a run of continuation texts adds to a message. */
  function Continued(texts: seq<string>): string {
    if texts == [] then []
    else Continued(texts[..|texts| - 1]) + "\n" + texts[|texts| - 1]
  }

  function Continuations(texts: seq<string>): (r: seq<LineKind>)
    ensures |r| == |texts| && forall k :: 0 <= k < |texts| ==> r[k] == Continuation(texts[k])
  {
    seq(|texts|, k requires 0 <= k < |texts| => Continuation(texts[k]))
  }

  /** A continuation after a message already extended by `added`. */
  lemma StepExtended(rs: seq<Record>, added: string, text: string)
    requires rs != []
    ensures var last := rs[|rs| - 1];
            Step(rs[|rs| - 1 := last.(message := last.message + added)], Continuation(text))
            == rs[|rs| - 1 := last.(message := last.message + (added + "\n" + text))]
  {
    var last := rs[|rs| - 1];
    assert last.message + added + "\n" + text == last.message + (added + "\n" + text);
  }

  lemma ContinuationsSnoc(kinds: seq<LineKind>, texts: seq<string>)
    requires texts != []
    ensures kinds + Continuations(texts)
            == kinds + Continuations(texts[..|texts| - 1]) + [Continuation(texts[|texts| - 1])]
  {
    var l := kinds + Continuations(texts);
    var r := kinds + Continuations(texts[..|texts| - 1]) + [Continuation(texts[|texts| - 1])];
    forall k | 0 <= k < |l| ensures l[k] == r[k] {
      if |kinds| <= k < |l| - 1 { assert texts[..|texts| - 1][k - |kinds|] == texts[k - |kinds|]; }
    }
  }

  lemma {:induction false} RunContinuations(kinds: seq<LineKind>, texts: seq<string>)
    ensures Run(kinds) == [] ==> Run(kinds + Continuations(texts)) == []
    ensures Run(kinds) != [] ==>
      var rs := Run(kinds);
      var last := rs[|rs| - 1];
      Run(kinds + Continuations(texts)) == rs[|rs| - 1 := last.(message := last.message + Continued(texts))]
  {
    var rs := Run(kinds);
    if texts == [] {
      assert kinds + Continuations(texts) == kinds;
      if rs != [] {
        var last := rs[|rs| - 1];
        assert last.message + Continued(texts) == last.message;
        assert last.(message := last.message) == last;
        assert rs[|rs| - 1 := last] == rs;
      }
    } else {
      var init, text := texts[..|texts| - 1], texts[|texts| - 1];
      RunContinuations(kinds, init);
      var before := kinds + Continuations(init);
      ContinuationsSnoc(kinds, texts);
      RunSnoc(before, Continuation(text));
      if rs != [] {
        var last := rs[|rs| - 1];
        StepExtended(rs, Continued(init), text);
      }
    }
  }

  /** None of the lines matches the header pattern. */
  predicate AllContinuations(conts: seq<string>) {
    forall k :: 0 <= k < |conts| ==> MatchHeader(Strip(conts[k])).None?
  }

  lemma ClassifyContinuation(raw: string)
    requires MatchHeader(Strip(raw)) == None
    ensures Classify(raw) == Continuation(Strip(raw))
  {
  }

  function StripAll(xs: seq<string>): (r: seq<string>)
    ensures |r| == |xs| && forall k :: 0 <= k < |xs| ==> r[k] == Strip(xs[k])
  {
    seq(|xs|, k requires 0 <= k < |xs| => Strip(xs[k]))
  }

  lemma KindsOfContinuations(conts: seq<string>)
    requires AllContinuations(conts)
    ensures Kinds(conts) == Continuations(StripAll(conts))
  {
    forall k | 0 <= k < |conts| ensures Kinds(conts)[k] == Continuations(StripAll(conts))[k] {
      ClassifyContinuation(conts[k]);
    }
  }

  /** Continuation lines: before any record they are dropped; after one they extend the
      message of the last record only, by a newline and the stripped line each, leaving
      every other field and every other record as it was. */
  lemma ParseContinuations(lines: seq<string>, conts: seq<string>)
    requires AllContinuations(conts)
    ensures Parse(lines) == [] ==> Parse(lines + conts) == []
    ensures Parse(lines) != [] ==>
      var rs := Parse(lines);
      var last := rs[|rs| - 1];
      Parse(lines + conts)
      == rs[|rs| - 1 := last.(message := last.message + Continued(StripAll(conts)))]
  {
    KindsAppend(lines, conts);
    KindsOfContinuations(conts);
    RunContinuations(Kinds(lines), StripAll(conts));
  }

  /** A bad timestamp: the line produces no record and changes no record. */
  lemma ParseSkipped(lines: seq<string>, raw: string)
    requires MatchHeader(Strip(raw)).Some? && Decode(MatchHeader(Strip(raw)).value).None?
    ensures Parse(lines + [raw]) == Parse(lines)
  {
    KindsAppend(lines, [raw]);
    ClassifyKinds(raw);
    RunSnoc(Kinds(lines), Classify(raw));
  }

  /** A header line with a valid timestamp appends exactly its record. */
  lemma ParseStart(lines: seq<string>, raw: string)
    requires Classify(raw).Start?
    ensures Parse(lines + [raw]) == Parse(lines) + [Classify(raw).record]
  {
    KindsAppend(lines, [raw]);
    RunSnoc(Kinds(lines), Classify(raw));
  }

  /** Lines joined with newlines. */
  function JoinLines(xs: seq<string>): string
    requires xs != []
  {
    if |xs| == 1 then xs[0] else JoinLines(xs[..|xs| - 1]) + "\n" + xs[|xs| - 1]
  }

  lemma {:induction false} ContinuedJoin(first: string, texts: seq<string>)
    ensures first + Continued(texts) == JoinLines([first] + texts)
  {
    if texts != [] {
      var init := texts[..|texts| - 1];
      ContinuedJoin(first, init);
      var xs := [first] + texts;
      assert xs[..|xs| - 1] == [first] + init;
    } else {
      assert [first] + texts == [first];
    }
  }

  /** A header followed by N continuation lines gives one record whose body is the header's
      message and those lines, each stripped, joined by newlines. */
  lemma ParseMessageBody(lines: seq<string>, raw: string, conts: seq<string>)
    requires Classify(raw).Start?
    requires AllContinuations(conts)
    ensures var r := Classify(raw).record;
            Parse(lines + [raw] + conts)
            == Parse(lines) + [r.(message := JoinLines([r.message] + StripAll(conts)))]
  {
    var r := Classify(raw).record;
    ParseStart(lines, raw);
    ParseContinuations(lines + [raw], conts);
    ContinuedJoin(r.message, StripAll(conts));
    AppendThenExtend(Parse(lines), r, JoinLines([r.message] + StripAll(conts)));
  }

  lemma AppendThenExtend(rs: seq<Record>, r: Record, message: string)
    ensures var added := rs + [r];
            added[|added| - 1] == r
            && added[|added| - 1 := r.(message := message)] == rs + [r.(message := message)]
  {
  }

  // ---- The imperative loop ----

  /** The loop of `parse_chat`, appending to a growing table and extending its last row. */
  method ParseChat(lines: seq<string>) returns (chatData: seq<Record>)
    ensures chatData == Parse(lines)
  {
    chatData := [];
    for i := 0 to |lines|
      invariant chatData == Parse(lines[..i])
    {
      assert lines[..i + 1] == lines[..i] + [lines[i]];
      ParseSnoc(lines[..i], lines[i]);
      chatData := ParseLine(chatData, lines[i]);
    }
    assert lines[..|lines|] == lines;
  }

  /** One pass of the loop body; the two strptime attempts are tried in order. */
  method ParseLine(chatData: seq<Record>, raw: string) returns (next: seq<Record>)
    ensures next == Step(chatData, Classify(raw))
  {
    next := chatData;
    var line := Strip(raw);
    var m := MatchHeader(line);
    if m.Some? {
      var h := m.value;
      var timestamp := TwelveHourFormat(h);
      if timestamp.None? {
        timestamp := TwentyFourHourFormat(h);
      }
      assert timestamp == Decode(h);
      if timestamp.None? {
        return;  // `continue`: the line is dropped
      }
      next := next + [Record(timestamp.value, Strip(h.sender), Strip(h.message))];
    } else if next != [] {
      var last := next[|next| - 1];
      next := next[|next| - 1 := last.(message := last.message + "\n" + line)];
    }
  }
}
