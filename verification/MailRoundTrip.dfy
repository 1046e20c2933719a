// Reading a printed mail gives the mail back.
module MailRoundTrip {
  import opened Wrappers
  import opened Text
  import opened MailMessage

  // A value that fits on one header line and has no white space at its ends.
  predicate HeaderValue(v: string) {
    Trimmed(v) && '\n' !in v
  }

  // ---- header blocks -------------------------------------------------------------------------------

  predicate ValidLine(l: Line) {
    l.name != "" && AllIn(l.name, IsNameChar) && '\n' !in l.rest
  }

  // Only the last line may end at its colon.
  predicate ValidLines(lines: seq<Line>) {
    && (forall i :: 0 <= i < |lines| ==> ValidLine(lines[i]))
    && (forall i :: 0 <= i < |lines| - 1 ==> lines[i].rest != "")
  }

  function Dict(lines: seq<Line>): map<string, string> {
    if lines == [] then map[]
    else Noted(Dict(lines[..|lines| - 1]), lines[|lines| - 1].name, lines[|lines| - 1].rest)
  }

  function Merged(lines: seq<Line>, found: map<string, string>): map<string, string> {
    if lines == [] then found else Merged(lines[1..], Noted(found, lines[0].name, lines[0].rest))
  }

  lemma DictSnoc(lines: seq<Line>, l: Line)
    ensures Dict(lines + [l]) == Dict(lines)[Lower(l.name) := Strip(l.rest)]
  {
    hide Lower, Strip;
    assert (lines + [l])[..|lines|] == lines;
  }

  lemma {:induction false} MergedIsDict(before: seq<Line>, lines: seq<Line>)
    ensures Merged(lines, Dict(before)) == Dict(before + lines)
    decreases |lines|
  {
    hide Lower, Strip;
    if lines == [] {
      assert before + lines == before;
    } else {
      DictSnoc(before, lines[0]);
      MergedIsDict(before + [lines[0]], lines[1..]);
      assert before + [lines[0]] + lines[1..] == before + lines;
    }
  }

  lemma {:induction false} NameLengthIs(name: string, rest: string)
    requires AllIn(name, IsNameChar)
    ensures NameLength(name + ":" + rest) == |name|
  {
    if name == "" {
      assert (name + ":" + rest)[0] == ':';
    } else {
      assert (name + ":" + rest)[1..] == name[1..] + ":" + rest;
      NameLengthIs(name[1..], rest);
    }
  }

  lemma {:induction false} BeforeStop(a: string, tail: string, c: char)
    requires c !in a && (tail == "" || tail[0] == c)
    ensures Before(a + tail, c) == a
  {
    if a == "" {
      assert a + tail == tail;
    } else {
      assert (a + tail)[1..] == a[1..] + tail && a[0] in a;
      BeforeStop(a[1..], tail, c);
    }
  }

  lemma HeaderAtLine(l: Line, tail: string)
    requires ValidLine(l) && (tail == "" || (tail[0] == '\n' && l.rest != ""))
    ensures var h := HeaderAt(l.Printed() + tail);
      h.Some? && h.value.0 == l.name && h.value.2 == |l.Printed()| && Strip(h.value.1) == Strip(l.rest)
  {
    hide SkipOne, Before, Strip;
    var s := l.Printed() + tail;
    var n := |l.name|;
    assert s == l.name + ":" + (l.rest + tail);
    NameLengthIs(l.name, l.rest + tail);
    assert s[n + 1..] == l.rest + tail && s[..n] == l.name;
    ValueRead(l.rest, tail);
  }

  lemma ValueRead(rest: string, tail: string)
    requires '\n' !in rest && (tail == "" || (tail[0] == '\n' && rest != ""))
    ensures var after := SkipOne(rest + tail);
      var value := Before(after, '\n');
      Strip(value) == Strip(rest) && |after| == |value| + |tail|
  {
    hide Strip, Before;
    if rest != "" && IsSpace(rest[0]) {
      var inner := rest[1..];
      assert rest == [rest[0]] + inner && (rest + tail)[1..] == inner + tail;
      BeforeStop(inner, tail, '\n');
      StripLead(rest[0], inner);
    } else {
      BeforeStop(rest, tail, '\n');
    }
  }

  // Every printed line is read back, in order.
  lemma {:induction false} HeadersOfBlock(lines: seq<Line>, found: map<string, string>)
    requires ValidLines(lines)
    ensures Headers(Block(lines), found) == Merged(lines, found)
    decreases |lines|
  {
    hide HeaderAt, Lower, Strip;
    if lines != [] {
      var tail := if |lines| == 1 then "" else "\n" + Block(lines[1..]);
      var s := lines[0].Printed() + tail;
      assert Block(lines) == s;
      HeaderAtLine(lines[0], tail);
      assert s[|lines[0].Printed()|..] == tail;
      HeadersOfBlock(lines[1..], Noted(found, lines[0].name, lines[0].rest));
      assert NextLine(tail) == Block(lines[1..]);
    }
  }

  lemma BlockIsRead(lines: seq<Line>)
    requires ValidLines(lines)
    ensures Headers(Block(lines), map[]) == Dict(lines)
  {
    HeadersOfBlock(lines, map[]);
    MergedIsDict([], lines);
    assert [] + lines == lines;
  }

  // The blank line after a block is the first one.
  lemma {:induction false} FindBlank(lines: seq<Line>, rest: string)
    requires lines != [] && forall i :: 0 <= i < |lines| ==> ValidLine(lines[i])
    ensures Find(Block(lines) + "\n\n" + rest, "\n\n") == |Block(lines)|
    decreases |lines|
  {
    hide Find, ValidLine;
    var l := lines[0].Printed();
    NoNewline(lines[0]);
    if |lines| == 1 {
      FindAtStart(rest);
      FindSkip(l, "\n\n" + rest, "\n\n");
      assert l + ("\n\n" + rest) == Block(lines) + "\n\n" + rest;
    } else {
      var more := Block(lines[1..]) + "\n\n" + rest;
      FindBlank(lines[1..], rest);
      BlockStart(lines[1..]);
      OneNewline(more);
      FindSkip(l, "\n" + more, "\n\n");
      assert l + ("\n" + more) == Block(lines) + "\n\n" + rest;
    }
  }

  lemma FindAtStart(rest: string)
    ensures Find("\n\n" + rest, "\n\n") == 0
  {
  }

  // A single line break is not a blank line.
  lemma OneNewline(more: string)
    requires more != "" && more[0] != '\n'
    ensures Find("\n" + more, "\n\n") == if Find(more, "\n\n") < 0 then -1 else 1 + Find(more, "\n\n")
  {
    assert ("\n" + more)[1] != '\n' && ("\n" + more)[1..] == more;
  }

  lemma NoNewline(l: Line)
    requires ValidLine(l)
    ensures '\n' !in l.Printed()
  {
    forall i | 0 <= i < |l.name| ensures l.name[i] != '\n' {
      assert IsNameChar(l.name[i]);
    }
  }

  lemma BlockStart(lines: seq<Line>)
    requires lines != [] && ValidLine(lines[0])
    ensures Block(lines) != "" && IsNameChar(Block(lines)[0])
  {
    assert lines[0].Printed()[0] == lines[0].name[0];
    assert Block(lines)[0] == lines[0].Printed()[0];
  }

  // ---- what is read is always a header value ---------------------------------------------------------

  ghost predicate AllHeaderValues(m: map<string, string>) {
    forall k <- m :: HeaderValue(m[k])
  }

  lemma StripKeepsOut(s: string, c: char)
    requires c !in s
    ensures c !in Strip(s)
  {
    var l := LStripBy(s, IsSpace);
    var r := RStripBy(l, IsSpace);
    assert forall i :: 0 <= i < |l| ==> l[i] == s[|s| - |l| + i];
    assert forall i :: 0 <= i < |r| ==> r[i] == l[i];
  }

  lemma NotedIsValue(found: map<string, string>, name: string, value: string)
    requires AllHeaderValues(found) && '\n' !in value
    ensures AllHeaderValues(Noted(found, name, value))
  {
    hide Strip, Lower;
    StripTrims(value);
    StripKeepsOut(value, '\n');
  }

  lemma {:induction false} HeadersAreValues(s: string, found: map<string, string>)
    requires AllHeaderValues(found)
    ensures AllHeaderValues(Headers(s, found))
    decreases |s|
  {
    hide HeaderAt, Noted, Before, AllHeaderValues;
    if s != "" {
      match HeaderAt(s) {
        case Some((name, value, end)) =>
          NotedIsValue(found, name, value);
          HeadersAreValues(NextLine(s[end..]), Noted(found, name, value));
        case None =>
          HeadersAreValues(NextLine(s[|Before(s, '\n')|..]), found);
      }
    }
  }

  // ---- the header block of a letter --------------------------------------------------------------------

  lemma KnownNames()
    ensures Lower("From") == "from" && Lower("To") == "to" && Lower("Subject") == "subject"
    ensures Lower("Date") == "date" && Lower("Message-ID") == "message-id"
    ensures Lower("In-Reply-To") == "in-reply-to" && Lower("References") == "references"
    ensures Lower("Content-Type") == "content-type"
  {
  }

  predicate HasHeaderValues(l: Letter, s: Stamp) {
    && HeaderValue(l.from) && HeaderValue(l.to) && HeaderValue(l.subject) && HeaderValue(s.date)
    && HeaderValue(MessageId(l, s)) && HeaderValue(l.inReplyTo) && HeaderValue(l.references)
  }

  lemma StripValue(v: string)
    requires HeaderValue(v)
    ensures Strip(" " + v) == v
  {
    StripLead(' ', v);
    TrimmedStaysSame(v);
  }

  function FirstFive(l: Letter, s: Stamp): map<string, string> {
    map["from" := Strip(" " + l.from), "to" := Strip(" " + l.to), "subject" := Strip(" " + l.subject),
        "date" := Strip(" " + s.date), "message-id" := Strip(" " + MessageId(l, s))]
  }

  lemma FirstFiveRead(l: Letter, s: Stamp)
    ensures Dict([Header("From", l.from), Header("To", l.to), Header("Subject", l.subject), Header("Date", s.date),
                  Header("Message-ID", MessageId(l, s))]) == FirstFive(l, s)
  {
    hide Lower, Strip, MessageId;
    KnownNames();
    var h1, h2, h3, h4, h5 := Header("From", l.from), Header("To", l.to), Header("Subject", l.subject),
      Header("Date", s.date), Header("Message-ID", MessageId(l, s));
    assert Dict([]) == map[];
    assert [] + [h1] == [h1] && [h1] + [h2] == [h1, h2] && [h1, h2] + [h3] == [h1, h2, h3]
           && [h1, h2, h3] + [h4] == [h1, h2, h3, h4] && [h1, h2, h3, h4] + [h5] == [h1, h2, h3, h4, h5];
    DictSnoc([], h1);
    DictSnoc([h1], h2);
    DictSnoc([h1, h2], h3);
    DictSnoc([h1, h2, h3], h4);
    DictSnoc([h1, h2, h3, h4], h5);
  }

  lemma LetterHeadersRead(l: Letter, s: Stamp)
    ensures var d := Dict(HeaderLines(l, s));
      && Get(d, "from") == Strip(" " + l.from) && Get(d, "to") == Strip(" " + l.to)
      && Get(d, "subject") == Strip(" " + l.subject) && Get(d, "date") == Strip(" " + s.date)
      && Get(d, "message-id") == Strip(" " + MessageId(l, s))
      && Get(d, "in-reply-to") == (if l.inReplyTo == "" then "" else Strip(" " + l.inReplyTo))
      && Get(d, "references") == (if l.references == "" then "" else Strip(" " + l.references))
      && "content-type" !in d
  {
    hide Lower, Strip, MessageId, Dict;
    KnownNames();
    FirstFiveRead(l, s);
    var base := [Header("From", l.from), Header("To", l.to), Header("Subject", l.subject), Header("Date", s.date),
                 Header("Message-ID", MessageId(l, s))];
    var reply := Header("In-Reply-To", l.inReplyTo);
    var refs := Header("References", l.references);
    DictSnoc(base, reply);
    DictSnoc(base, refs);
    DictSnoc(base + [reply], refs);
    assert base + [] == base && base + [reply] + [] == base + [reply];
  }

  lemma LetterLinesValid(l: Letter, s: Stamp)
    requires HasHeaderValues(l, s)
    ensures ValidLines(HeaderLines(l, s)) && HeaderLines(l, s) != []
    ensures forall h <- HeaderLines(l, s) :: h.rest != ""
  {
    hide Trimmed, MessageId;
    var lines := HeaderLines(l, s);
    NamesAreNames();
    forall i | 0 <= i < |lines| ensures ValidLine(lines[i]) && lines[i].rest != "" {
      assert lines[i] in lines;
    }
  }

  lemma NamesAreNames()
    ensures forall name <- {"From", "To", "Subject", "Date", "Message-ID", "In-Reply-To", "References"} ::
      AllIn(name, IsNameChar)
  {
  }

  // ---- without attachments ---------------------------------------------------------------------------

  predicate ComesBack(l: Letter, s: Stamp, p: Parsed) {
    && p.from == l.from && p.to == l.to && p.subject == l.subject && p.date == s.date
    && p.messageId == MessageId(l, s) && p.inReplyTo == l.inReplyTo && p.references == l.references
    && p.body == l.body && p.attachments == []
  }

  lemma SplitAtBlank(lines: seq<Line>, rest: string)
    requires lines != [] && ValidLines(lines)
    ensures Split(Block(lines) + "\n\n" + rest) == (Block(lines), rest)
  {
    hide Block;
    FindBlank(lines, rest);
    var text := Block(lines) + "\n\n" + rest;
    assert text[..|Block(lines)|] == Block(lines) && text[|Block(lines)| + 2..] == rest;
  }

  lemma PlainReads(l: Letter, s: Stamp)
    requires l.attachments == [] && HasHeaderValues(l, s)
    ensures ComesBack(l, s, Parse(MailText(l, s)))
  {
    hide Headers, Split, Strip, Block, HeaderLines, HeaderValue, Find, Lower;
    LetterLinesValid(l, s);
    var lines := HeaderLines(l, s);
    SplitAtBlank(lines, l.body);
    BlockIsRead(lines);
    LetterHeadersRead(l, s);
    assert MailText(l, s) == Block(lines) + "\n\n" + l.body;
    StripValue(l.from);
    StripValue(l.to);
    StripValue(l.subject);
    StripValue(s.date);
    StripValue(MessageId(l, s));
    StripValue(l.inReplyTo);
    StripValue(l.references);
    assert !Contains(Lower(""), "multipart") by { NothingInEmpty(); }
  }

  lemma NothingInEmpty()
    ensures !Contains(Lower(""), "multipart") && !Contains(Lower(""), "attachment")
  {
    assert Lower("") == "";
  }

  // A mail without attachments comes back as it was exactly when every header value is a single line
  // without white space at its ends; the body may be anything.
  lemma PlainRoundTrip(l: Letter, s: Stamp)
    requires l.attachments == [] && Built(l, s).Ok?
    ensures ComesBack(l, s, Parse(Built(l, s).value)) <==> HasHeaderValues(l, s)
  {
    hide Parse, MailText, HeaderValue;
    var p := Parse(MailText(l, s));
    if HasHeaderValues(l, s) {
      PlainReads(l, s);
    }
    ReadFieldsAreValues(MailText(l, s));
  }

  lemma ReadFieldsAreValues(text: string)
    ensures var p := Parse(text);
      && HeaderValue(p.from) && HeaderValue(p.to) && HeaderValue(p.subject) && HeaderValue(p.date)
      && HeaderValue(p.messageId) && HeaderValue(p.inReplyTo) && HeaderValue(p.references)
  {
    hide Headers, Split, Parts, TextOf, AttachmentsOf, Contains, Lower;
    HeadersAreValues(Split(text).0, map[]);
  }
}
