// Mail of kind 1301: the text a mail is sent as, and the reading of such a text.
module MailMessage {
  import opened Wrappers
  import opened Text
  import Base64
  import Utf8

  const MAX_MAIL_SIZE: nat := 60000
  const DEFAULT_MIME := "application/octet-stream"

  // "" stands for an absent value, as the program treats the two alike.
  datatype Outgoing = Outgoing(filename: string, mime: string, url: string, sha256: string, data: string)
  {
    function Filename(): string {
      if filename == "" then "file" else filename
    }

    function Mime(): string {
      if mime == "" then DEFAULT_MIME else mime
    }
  }

  datatype Letter = Letter(
    from: string, to: string, subject: string, body: string, messageId: string, inReplyTo: string,
    references: string, attachments: seq<Outgoing>)

  // What the host supplies: the date line, a Message-ID and a multipart boundary drawn at random.
  datatype Stamp = Stamp(date: string, freshId: string, boundary: string)

  // A printed header line is name + ":" + rest.
  datatype Line = Line(name: string, rest: string)
  {
    function Printed(): string {
      name + ":" + rest
    }
  }

  function Header(name: string, value: string): Line {
    Line(name, " " + value)
  }

  datatype Attachment =
    | ByUrl(filename: string, mime: string, url: string, sha256: string)
    | Located(filename: string, mime: string, url: string)
    | Inline(filename: string, mime: string, data: string)

  datatype Parsed = Parsed(
    from: string, to: string, subject: string, date: string, messageId: string, inReplyTo: string,
    references: string, body: string, headers: map<string, string>, attachments: seq<Attachment>)

  // ---- printing ------------------------------------------------------------------------------------

  function Block(lines: seq<Line>): string {
    if lines == [] then ""
    else if |lines| == 1 then lines[0].Printed()
    else lines[0].Printed() + "\n" + Block(lines[1..])
  }

  function MessageId(l: Letter, s: Stamp): string {
    if l.messageId != "" then l.messageId else s.freshId
  }

  function HeaderLines(l: Letter, s: Stamp): seq<Line> {
    [Header("From", l.from), Header("To", l.to), Header("Subject", l.subject), Header("Date", s.date),
     Header("Message-ID", MessageId(l, s))]
    + (if l.inReplyTo == "" then [] else [Header("In-Reply-To", l.inReplyTo)])
    + (if l.references == "" then [] else [Header("References", l.references)])
  }

  function MultipartLine(boundary: string): Line {
    Header("Content-Type", "multipart/mixed; boundary=\"" + boundary + "\"")
  }

  function WithUrl(atts: seq<Outgoing>): seq<Outgoing> {
    if atts == [] then []
    else (if atts[0].url != "" then [atts[0]] else []) + WithUrl(atts[1..])
  }

  function WithoutUrl(atts: seq<Outgoing>): seq<Outgoing> {
    if atts == [] then []
    else (if atts[0].url == "" then [atts[0]] else []) + WithoutUrl(atts[1..])
  }

  function Link(a: Outgoing): string {
    "- " + a.Filename() + " (" + a.Mime() + "): " + a.url
  }

  function Links(urls: seq<Outgoing>): (links: seq<string>)
    ensures |links| == |urls|
  {
    seq(|urls|, i requires 0 <= i < |urls| => Link(urls[i]))
  }

  function BodyText(l: Letter): string {
    var urls := WithUrl(l.attachments);
    if urls == [] then l.body
    else l.body + "\n\nВложения:\n" + Join(Links(urls), "\n")
  }

  // Line by line, each URL attachment under its name and type, in the order given.
  function LinksBelow(urls: seq<Outgoing>): string {
    if urls == [] then ""
    else
      var a := urls[0];
      var name := if a.filename == "" then "file" else a.filename;
      var mime := if a.mime == "" then "application/octet-stream" else a.mime;
      "\n" + ("- " + name + " (" + mime + "): " + a.url) + LinksBelow(urls[1..])
  }

  lemma {:induction false} LinksAreLines(urls: seq<Outgoing>)
    requires urls != []
    ensures "\n" + Join(Links(urls), "\n") == LinksBelow(urls)
    decreases |urls|
  {
    var link := Link(urls[0]);
    assert LinksBelow(urls) == "\n" + link + LinksBelow(urls[1..]) by { FirstLink(urls); }
    hide Link, LinksBelow;
    assert Links(urls)[1..] == Links(urls[1..]) && Links(urls)[0] == link;
    if |urls| == 1 {
      assert LinksBelow([]) == "" by { NoLinks(); }
      assert urls[1..] == [];
    } else {
      LinksAreLines(urls[1..]);
      var rest := Join(Links(urls[1..]), "\n");
      assert Join(Links(urls), "\n") == link + "\n" + rest;
      Associative(link, "\n", rest);
      Associative("\n", link, "\n" + rest);
    }
  }

  lemma FirstLink(urls: seq<Outgoing>)
    requires urls != []
    ensures LinksBelow(urls) == "\n" + Link(urls[0]) + LinksBelow(urls[1..])
  {
  }

  lemma NoLinks()
    ensures LinksBelow([]) == ""
  {
  }

  // The text a reader finds: the body, and below it the heading and the links, if there are any.
  lemma BodyHasLinks(l: Letter)
    ensures var urls := WithUrl(l.attachments);
      BodyText(l) == l.body + (if urls == [] then "" else "\n\nВложения:" + LinksBelow(urls))
  {
    hide Link, LinksBelow, Join;
    if WithUrl(l.attachments) != [] {
      LinksAreLines(WithUrl(l.attachments));
      assert "\n\nВложения:\n" == "\n\nВложения:" + "\n";
    }
  }

  // Attachments keep the order they were given in: one more comes last of its kind.
  lemma {:induction false} InOrder(atts: seq<Outgoing>, a: Outgoing)
    ensures WithUrl(atts + [a]) == WithUrl(atts) + if a.url == "" then [] else [a]
    ensures WithoutUrl(atts + [a]) == WithoutUrl(atts) + if a.url == "" then [a] else []
  {
    if atts == [] {
      assert [] + [a] == [a] && [a][1..] == [];
      assert WithUrl([]) == [] && WithoutUrl([]) == [];
    } else {
      assert (atts + [a])[1..] == atts[1..] + [a];
      InOrder(atts[1..], a);
    }
  }

  // Each attachment is sent in exactly one of the two ways.
  lemma {:induction false} AttachmentsDivide(atts: seq<Outgoing>)
    ensures multiset(WithUrl(atts)) + multiset(WithoutUrl(atts)) == multiset(atts)
    ensures (forall a <- WithUrl(atts) :: a.url != "") && forall a <- WithoutUrl(atts) :: a.url == ""
  {
    if atts != [] {
      AttachmentsDivide(atts[1..]);
      assert atts == [atts[0]] + atts[1..];
    }
  }

  // s.replace('"', "'")
  function SingleQuoted(s: string): (r: string)
    ensures |r| == |s|
  {
    seq(|s|, i requires 0 <= i < |s| => if s[i] == '"' then '\'' else s[i])
  }

  lemma QuotesBecomeSingle(s: string, i: nat)
    requires i < |s|
    ensures SingleQuoted(s)[i] == if s[i] == '"' then 0x27 as char else s[i]
  {
  }

  function Wrapped(data: string): string
    decreases |data|
  {
    if |data| <= 76 then data else data[..76] + "\n" + Wrapped(data[76..])
  }

  // One part of a multipart mail: its header lines and its content.
  datatype Section = Section(lines: seq<Line>, content: string)
  {
    function Printed(): string {
      Block(lines) + "\n\n" + content
    }
  }

  function BodySection(text: string): Section {
    Section([Header("Content-Type", "text/plain; charset=utf-8")], text)
  }

  function Disposition(name: string): string {
    "attachment; filename=\"" + name + "\""
  }

  function UrlType(url: string, name: string): string {
    "message/external-body; access-type=URL; URL=\"" + url + "\"; name=\"" + name + "\""
  }

  function InlineType(mime: string, name: string): string {
    mime + "; name=\"" + name + "\""
  }

  function UrlSection(a: Outgoing): Section {
    var name := SingleQuoted(a.Filename());
    Section(
      [Header("Content-Type", UrlType(a.url, name)),
       Header("Content-Disposition", Disposition(name)),
       Header("X-Attachment-Mime", a.Mime()),
       Line("X-Attachment-Sha256", if a.sha256 != "" then " " + a.sha256 else "")],
      "Файл: " + name + " (" + a.Mime() + "). Скачать: " + a.url)
  }

  function InlineSection(a: Outgoing): Section {
    var name := SingleQuoted(a.Filename());
    Section(
      [Header("Content-Type", InlineType(a.Mime(), name)),
       Header("Content-Disposition", Disposition(name)),
       Header("Content-Transfer-Encoding", "base64")],
      Wrapped(Without(a.data, '\n')))
  }

  // What a reader without the program sees in place of the attachment.
  lemma UrlSectionTells(a: Outgoing)
    ensures var name := SingleQuoted(if a.filename == "" then "file" else a.filename);
      var mime := if a.mime == "" then "application/octet-stream" else a.mime;
      UrlSection(a).content == "Файл: " + name + " (" + mime + "). Скачать: " + a.url
  {
    hide SingleQuoted;
  }

  function UrlSections(atts: seq<Outgoing>): seq<Section> {
    seq(|atts|, i requires 0 <= i < |atts| => UrlSection(atts[i]))
  }

  function InlineSections(atts: seq<Outgoing>): seq<Section> {
    seq(|atts|, i requires 0 <= i < |atts| => InlineSection(atts[i]))
  }

  function Sections(l: Letter): seq<Section> {
    [BodySection(BodyText(l))] + UrlSections(WithUrl(l.attachments)) + InlineSections(WithoutUrl(l.attachments))
  }

  function ClosedBy(boundary: string, section: Section): string {
    "\n" + section.Printed() + "\n--" + boundary
  }

  // Sections one after the other, each closed by a boundary.
  function Enclosed(boundary: string, sections: seq<Section>): string {
    if sections == [] then "" else ClosedBy(boundary, sections[0]) + Enclosed(boundary, sections[1..])
  }

  function MultipartText(boundary: string, sections: seq<Section>): string {
    "--" + boundary + Enclosed(boundary, sections) + "--"
  }

  function MailText(l: Letter, s: Stamp): string {
    if l.attachments == [] then
      Block(HeaderLines(l, s)) + "\n\n" + l.body
    else
      Block(HeaderLines(l, s) + [MultipartLine(s.boundary)]) + "\n\n" + MultipartText(s.boundary, Sections(l))
  }

  function Built(l: Letter, s: Stamp): Result<string, string> {
    var text := MailText(l, s);
    if |Utf8.Encode(text)| > MAX_MAIL_SIZE then Err("mail too large") else Ok(text)
  }

  // The text begins with these lines, the last one perhaps continued.
  predicate BeginsWith(text: string, lines: seq<string>) {
    if lines == [] then true
    else if |lines| == 1 then lines[0] <= text
    else lines[0] + "\n" <= text && BeginsWith(text[|lines[0]| + 1..], lines[1..])
  }

  lemma {:induction false} BlockBegins(lines: seq<Line>, n: nat)
    requires n <= |lines|
    ensures BeginsWith(Block(lines), PrintedLines(lines[..n]))
  {
    hide Line.Printed;
    if n > 0 {
      assert PrintedLines(lines[..n])[1..] == PrintedLines(lines[1..][..n - 1]);
      BlockBegins(lines[1..], n - 1);
      var first := lines[0].Printed();
      if |lines| > 1 {
        assert Block(lines)[|first| + 1..] == Block(lines[1..]);
      }
    }
  }

  lemma {:induction false} BeginsLonger(text: string, more: string, lines: seq<string>)
    requires BeginsWith(text, lines)
    ensures BeginsWith(text + more, lines)
  {
    if |lines| > 1 {
      var n := |lines[0]| + 1;
      assert (text + more)[n..] == text[n..] + more;
      BeginsLonger(text[n..], more, lines[1..]);
    }
  }

  // A printed mail begins with its headers, one a line and in this order.
  lemma PrintedHeaders(l: Letter, s: Stamp)
    ensures BeginsWith(MailText(l, s),
              ["From: " + l.from, "To: " + l.to, "Subject: " + l.subject, "Date: " + s.date,
               "Message-ID: " + if l.messageId == "" then s.freshId else l.messageId])
  {
    hide MultipartText, Sections, BeginsWith, Block;
    var lines := HeaderLines(l, s) + if l.attachments == [] then [] else [MultipartLine(s.boundary)];
    assert HeaderLines(l, s) + [] == HeaderLines(l, s);
    BlockBegins(lines, 5);
    FiveNames(lines[..5], l, s);
    var rest := if l.attachments == [] then "\n\n" + l.body else "\n\n" + MultipartText(s.boundary, Sections(l));
    BeginsLonger(Block(lines), rest, PrintedLines(lines[..5]));
    assert MailText(l, s) == Block(lines) + rest;
  }

  lemma FiveNames(lines: seq<Line>, l: Letter, s: Stamp)
    requires lines == [Header("From", l.from), Header("To", l.to), Header("Subject", l.subject), Header("Date", s.date),
                       Header("Message-ID", MessageId(l, s))]
    ensures PrintedLines(lines) == ["From: " + l.from, "To: " + l.to, "Subject: " + l.subject, "Date: " + s.date,
                                    "Message-ID: " + MessageId(l, s)]
  {
    OneName("From", l.from);
    OneName("To", l.to);
    OneName("Subject", l.subject);
    OneName("Date", s.date);
    OneName("Message-ID", MessageId(l, s));
    assert "From" + ": " == "From: " && "To" + ": " == "To: " && "Subject" + ": " == "Subject: ";
    assert "Date" + ": " == "Date: " && "Message-ID" + ": " == "Message-ID: ";
    hide Line.Printed;
  }

  lemma OneName(name: string, value: string)
    ensures Header(name, value).Printed() == name + ": " + value
  {
    assert name + ":" + (" " + value) == name + ": " + value;
  }

  // The lines one section adds to the list of part lines.
  function PartLines(boundary: string, section: Section): (lines: seq<string>)
    ensures lines != []
  {
    ["--" + boundary] + PrintedLines(section.lines) + ["", section.content]
  }

  function PrintedLines(lines: seq<Line>): seq<string> {
    seq(|lines|, i requires 0 <= i < |lines| => lines[i].Printed())
  }

  lemma {:induction false} BlockIsJoin(lines: seq<Line>)
    ensures Join(PrintedLines(lines), "\n") == Block(lines)
  {
    if |lines| > 1 {
      assert PrintedLines(lines)[1..] == PrintedLines(lines[1..]);
      BlockIsJoin(lines[1..]);
    }
  }

  lemma PartLinesJoin(boundary: string, section: Section)
    requires section.lines != []
    ensures Join(PartLines(boundary, section), "\n") == "--" + boundary + "\n" + section.Printed()
  {
    var head, middle, tail := ["--" + boundary], PrintedLines(section.lines), ["", section.content];
    BlockIsJoin(section.lines);
    assert tail[1..] == [section.content];
    assert Join(tail, "\n") == "\n" + section.content;
    JoinAppend(head, middle, "\n");
    JoinAppend(head + middle, tail, "\n");
  }

  function AllPartLines(boundary: string, sections: seq<Section>): seq<string> {
    if sections == [] then []
    else AllPartLines(boundary, sections[..|sections| - 1]) + PartLines(boundary, sections[|sections| - 1])
  }

  lemma {:induction false} EnclosedSnoc(boundary: string, sections: seq<Section>, last: Section)
    ensures Enclosed(boundary, sections + [last]) == Enclosed(boundary, sections) + ClosedBy(boundary, last)
  {
    hide ClosedBy;
    if sections == [] {
      assert [] + [last] == [last] && [last][1..] == [];
      assert Enclosed(boundary, [last]) == ClosedBy(boundary, last) + Enclosed(boundary, []);
    } else {
      assert (sections + [last])[1..] == sections[1..] + [last];
      EnclosedSnoc(boundary, sections[1..], last);
      Associative(ClosedBy(boundary, sections[0]), Enclosed(boundary, sections[1..]), ClosedBy(boundary, last));
    }
  }

  lemma Reassociate(joined: string, enclosed: string, boundary: string, text: string)
    requires joined + "\n--" + boundary == "--" + boundary + enclosed
    ensures (joined + "\n" + ("--" + boundary + "\n" + text)) + "\n--" + boundary
            == "--" + boundary + (enclosed + ("\n" + text + "\n--" + boundary))
  {
    var close := "\n" + text + "\n--" + boundary;
    assert "\n" + ("--" + boundary + "\n" + text) == ("\n--" + boundary) + ("\n" + text);
    calc {
      (joined + "\n" + ("--" + boundary + "\n" + text)) + "\n--" + boundary;
      (joined + "\n--" + boundary) + close;
      ("--" + boundary + enclosed) + close;
    }
  }

  // The joined part lines are the sections between their boundaries.
  lemma {:induction false} PartLinesEnclose(boundary: string, sections: seq<Section>)
    requires sections != [] && forall s <- sections :: s.lines != []
    ensures AllPartLines(boundary, sections) != []
    ensures Join(AllPartLines(boundary, sections), "\n") + "\n--" + boundary
            == "--" + boundary + Enclosed(boundary, sections)
    decreases |sections|
  {
    hide Section.Printed, PartLines, Join;
    var init, last := sections[..|sections| - 1], sections[|sections| - 1];
    assert sections == init + [last];
    PartLinesJoin(boundary, last);
    EnclosedSnoc(boundary, init, last);
    if init != [] {
      PartLinesEnclose(boundary, init);
      JoinAppend(AllPartLines(boundary, init), PartLines(boundary, last), "\n");
      Reassociate(Join(AllPartLines(boundary, init), "\n"), Enclosed(boundary, init), boundary, last.Printed());
    } else {
      assert AllPartLines(boundary, sections) == PartLines(boundary, last);
      assert Enclosed(boundary, init) == "";
    }
  }

  method BuildMultipart(l: Letter, boundary: string) returns (text: string)
    ensures text == MultipartText(boundary, Sections(l))
  {
    hide BodyText, WithUrl, WithoutUrl, BodySection, UrlSection, InlineSection, PartLines, Enclosed, Join;
    var urls, inline := WithUrl(l.attachments), WithoutUrl(l.attachments);
    var body := BodySection(BodyText(l));
    ghost var sections := [body];
    var parts := PartLines(boundary, body);
    assert AllPartLines(boundary, sections) == parts by {
      assert sections[..0] == [];
    }
    for i := 0 to |urls|
      invariant sections == [body] + UrlSections(urls[..i])
      invariant parts == AllPartLines(boundary, sections)
    {
      assert (sections + [UrlSection(urls[i])])[..|sections|] == sections;
      sections := sections + [UrlSection(urls[i])];
      parts := parts + PartLines(boundary, UrlSection(urls[i]));
    }
    for i := 0 to |inline|
      invariant sections == [body] + UrlSections(urls) + InlineSections(inline[..i])
      invariant parts == AllPartLines(boundary, sections)
    {
      assert (sections + [InlineSection(inline[i])])[..|sections|] == sections;
      sections := sections + [InlineSection(inline[i])];
      parts := parts + PartLines(boundary, InlineSection(inline[i]));
    }
    assert sections == Sections(l);
    SectionsHaveLines(l);
    PartLinesEnclose(boundary, sections);
    JoinAppend(parts, ["--" + boundary + "--"], "\n");
    parts := parts + ["--" + boundary + "--"];
    text := Join(parts, "\n");
    assert Join(["--" + boundary + "--"], "\n") == "--" + boundary + "--" by { JoinOne("--" + boundary + "--"); }
  }

  lemma JoinOne(s: string)
    ensures Join([s], "\n") == s
  {
  }

  lemma SectionsHaveLines(l: Letter)
    ensures Sections(l) != [] && forall s <- Sections(l) :: s.lines != []
  {
    hide BodyText, WithUrl, WithoutUrl, Header;
  }

  // The extra headers a caller may pass are not looked at.
  method BuildMail(l: Letter, s: Stamp, extraHeaders: map<string, string>) returns (r: Result<string, string>)
    ensures r == Built(l, s)
  {
    hide Block, MultipartText, Sections, Utf8.Encode;
    var lines := [Header("From", l.from), Header("To", l.to), Header("Subject", l.subject), Header("Date", s.date),
                  Header("Message-ID", MessageId(l, s))];
    if l.inReplyTo != "" {
      lines := lines + [Header("In-Reply-To", l.inReplyTo)];
    }
    if l.references != "" {
      lines := lines + [Header("References", l.references)];
    }
    assert lines == HeaderLines(l, s);
    var mail: string;
    if l.attachments != [] {
      lines := lines + [MultipartLine(s.boundary)];
      var multipart := BuildMultipart(l, s.boundary);
      mail := Block(lines) + "\n\n" + multipart;
    } else {
      mail := Block(lines) + "\n\n" + l.body;
    }
    if |Utf8.Encode(mail)| > MAX_MAIL_SIZE {
      return Err("mail too large");
    }
    return Ok(mail);
  }

  // ---- reading -------------------------------------------------------------------------------------

  predicate IsNameChar(c: char) {
    'A' <= c <= 'Z' || 'a' <= c <= 'z' || '0' <= c <= '9' || c == '-'
  }

  function NameLength(s: string): (n: nat)
    ensures n <= |s| && (forall i :: 0 <= i < n ==> IsNameChar(s[i])) && (n < |s| ==> !IsNameChar(s[n]))
  {
    if s != "" && IsNameChar(s[0]) then 1 + NameLength(s[1..]) else 0
  }

  function NextLine(s: string): (r: string)
    ensures |r| <= |s| && (s != "" ==> |r| < |s|)
  {
    if s == "" then "" else s[1..]
  }

  // \s?
  function SkipOne(s: string): (r: string)
    ensures |r| <= |s|
  {
    if s != "" && IsSpace(s[0]) then s[1..] else s
  }

  // A header at the start of a line: its name, its raw value and the position where the match ends.
  // One white space character after the colon is skipped, be it the end of the line.
  function HeaderAt(s: string): (h: Option<(string, string, nat)>)
    ensures h.Some? ==> 0 < h.value.2 <= |s| && '\n' !in h.value.1
  {
    var n := NameLength(s);
    if n == 0 || n == |s| || s[n] != ':' then None
    else
      var after := SkipOne(s[n + 1..]);
      var value := Before(after, '\n');
      Some((s[..n], value, |s| - |after| + |value|))
  }

  function Noted(found: map<string, string>, name: string, value: string): map<string, string> {
    found[Lower(name) := Strip(value)]
  }

  // The headers of a block that starts at the start of a line; a later one replaces an earlier one.
  function Headers(s: string, found: map<string, string>): map<string, string>
    decreases |s|
  {
    if s == "" then found
    else match HeaderAt(s)
      case Some((name, value, end)) => Headers(NextLine(s[end..]), Noted(found, name, value))
      case None => Headers(NextLine(s[|Before(s, '\n')|..]), found)
  }

  function Get(headers: map<string, string>, name: string): string {
    if name in headers then headers[name] else ""
  }

  // Letters that a case-insensitive pattern does not tell apart.
  function FoldChar(c: char): char {
    var n := c as int;
    if n == 0x130 || n == 0x131 then 'i' else if n == 0x17F then 's' else if n == 0x212A then 'k' else LowerChar(c)
  }

  // As patterns that ignore case take them: ASCII letters, both Turkish i, the long s and the Kelvin sign.
  lemma FoldIs(c: char)
    ensures FoldChar(0x130 as char) == FoldChar(0x131 as char) == 'i'
    ensures FoldChar(0x17F as char) == 's' && FoldChar(0x212A as char) == 'k'
    ensures 'A' <= c <= 'Z' ==> FoldChar(c) as int == c as int + 32
    ensures !('A' <= c <= 'Z') && c as int !in {0x130, 0x131, 0x17F, 0x212A} ==> FoldChar(c) == c
  {
  }

  predicate StartsFolded(s: string, key: string) {
    |key| <= |s| && forall i :: 0 <= i < |key| ==> FoldChar(s[i]) == key[i]
  }

  function Until(s: string, stop: char -> bool): (r: string)
    ensures r <= s
  {
    if s == "" || stop(s[0]) then "" else [s[0]] + Until(s[1..], stop)
  }

  // "?([^stop]+): the value with the quote before it left out.
  function Unquoted(s: string, stop: char -> bool): string {
    Until(if s != "" && s[0] == '"' then s[1..] else s, stop)
  }

  // The leftmost key that a value follows, and that value.
  function SearchValue(s: string, key: string, stop: char -> bool): Option<string> {
    if StartsFolded(s, key) && Unquoted(s[|key|..], stop) != "" then Some(Unquoted(s[|key|..], stop))
    else if s == "" then None
    else SearchValue(s[1..], key, stop)
  }

  predicate EndsFilename(c: char) {
    c == '"' || c == '\r' || c == '\n'
  }

  predicate EndsUrl(c: char) {
    c == '"' || IsSpace(c)
  }

  predicate EndsBoundary(c: char) {
    c == '"' || IsSpace(c) || c == ';'
  }

  // What follows "multipart/mixed;" in the pattern.
  function AfterType(s: string): string {
    var u := LStripBy(s, IsSpace);
    if !StartsFolded(u, "boundary=") then "" else Unquoted(u[9..], EndsBoundary)
  }

  // A multipart Content-Type at the start of `s`: its boundary, "" when the pattern does not match here.
  function BoundaryAt(s: string): string {
    if !StartsFolded(s, "content-type:") then ""
    else
      var t := LStripBy(s[13..], IsSpace);
      if !StartsFolded(t, "multipart/mixed;") then "" else AfterType(t[16..])
  }

  function SearchBoundary(s: string): string {
    if BoundaryAt(s) != "" then BoundaryAt(s) else if s == "" then "" else SearchBoundary(s[1..])
  }

  predicate IsEdge(c: char) {
    c == '\r' || c == '\n' || c == ' '
  }

  // s.split(sep, 1), the second half "" when there is no separator.
  function SplitFirst(s: string, sep: string): (string, string)
    requires sep != ""
  {
    var r := Find(s, sep);
    if r < 0 then (s, "") else (s[..r], s[r + |sep|..])
  }

  type Part = (map<string, string>, string)

  function PartOf(piece: string): Option<Part> {
    var p := StripBy(piece, IsEdge);
    if p == "" || p == "--" then None
    else
      var (head, body) := SplitFirst(p, "\n\n");
      Some((Headers(head, map[]), body))
  }

  function PartsOf(pieces: seq<string>): seq<Part> {
    if pieces == [] then []
    else (match PartOf(pieces[0]) case Some(p) => [p] case None => []) + PartsOf(pieces[1..])
  }

  function Parts(headerBlock: string, body: string): seq<Part> {
    var boundary := SearchBoundary(headerBlock);
    if boundary == "" then [] else PartsOf(SplitOn(body, "--" + boundary))
  }

  function Or(s: string, otherwise: string): string {
    if s == "" then otherwise else s
  }

  function FilenameOf(disposition: string, contentType: string): string {
    var byDisposition := SearchValue(disposition, "filename=", EndsFilename);
    var first := if byDisposition.Some? then Strip(byDisposition.value) else "";
    if first != "" then first
    else match SearchValue(contentType, "name=", EndsFilename)
      case Some(name) => Strip(name)
      case None => ""
  }

  // The name stands in the disposition, else in the type.
  lemma NameIs(disposition: string, contentType: string)
    ensures var first, second := SearchValue(disposition, "filename=", EndsFilename),
                                 SearchValue(contentType, "name=", EndsFilename);
      var name := FilenameOf(disposition, contentType);
      && (first.Some? && Strip(first.value) != "" ==> name == Strip(first.value))
      && (first.None? && second.Some? ==> name == Strip(second.value))
      && (first.None? && second.None? ==> name == "")
  {
    hide Strip, SearchValue;
  }

  function AttachmentOf(p: Part): Option<Attachment> {
    var (headers, body) := p;
    var contentType := Get(headers, "content-type");
    var filename := Or(FilenameOf(Get(headers, "content-disposition"), contentType), "file");
    var mime := Or(Strip(Before(contentType, ';')), DEFAULT_MIME);
    var location := Strip(Get(headers, "content-location"));
    if Contains(Lower(contentType), "message/external-body") then
      match SearchValue(contentType, "url=", EndsUrl)
      case Some(url) =>
        Some(ByUrl(filename, Strip(Or(Get(headers, "x-attachment-mime"), DEFAULT_MIME)), url,
                   Strip(Get(headers, "x-attachment-sha256"))))
      case None => None
    else if "http" <= location then Some(Located(filename, mime, location))
    else
      match Base64.Decoded(NoSpace(body))
      case Some(bytes) => Some(Inline(filename, mime, Base64.Encoded(bytes)))
      case None => None
  }

  predicate IsAttachment(p: Part) {
    Contains(Lower(Get(p.0, "content-disposition")), "attachment")
  }

  predicate IsText(p: Part) {
    Contains(Lower(Get(p.0, "content-type")), "text/plain") && !IsAttachment(p)
  }

  function TextOf(parts: seq<Part>, otherwise: string): string {
    if parts == [] then otherwise else if IsText(parts[0]) then parts[0].1 else TextOf(parts[1..], otherwise)
  }

  function AttachmentIn(p: Part): seq<Attachment> {
    if !IsAttachment(p) then []
    else match AttachmentOf(p)
      case Some(a) => [a]
      case None => []
  }

  function AttachmentsOf(parts: seq<Part>): seq<Attachment> {
    if parts == [] then [] else AttachmentIn(parts[0]) + AttachmentsOf(parts[1..])
  }

  function Split(text: string): (string, string) {
    if Contains(text, "\n\n") then SplitFirst(text, "\n\n") else SplitFirst(text, "\r\n\r\n")
  }

  // The headers end at the first empty line; only where there is none, lines may end in CR LF.
  lemma HeadersEnd(text: string, n: int)
    requires if Find(text, "\n\n") >= 0 then n == Find(text, "\n\n") else n == Find(text, "\r\n\r\n")
    ensures Split(text) ==
      if Find(text, "\n\n") >= 0 then (text[..n], text[n + 2..])
      else if n >= 0 then (text[..n], text[n + 4..])
      else (text, "")
  {
    hide Find;
  }

  // Parts of other programs' mails: an attachment by Content-Location keeps its address, one by URL without
  // a URL is dropped, a part without the word attachment in its disposition is none.
  lemma ForeignPartIs(p: Part)
    ensures var kind, location := Lower(Get(p.0, "content-type")), Strip(Get(p.0, "content-location"));
      var found := AttachmentIn(p);
      && |found| <= 1
      && (!Contains(Lower(Get(p.0, "content-disposition")), "attachment") ==> found == [])
      && (Contains(kind, "message/external-body") ==> found == [] || found[0].ByUrl?)
      && (found != [] && !Contains(kind, "message/external-body") ==>
            if "http" <= location then found[0].Located? && found[0].url == location else found[0].Inline?)
      && (IsAttachment(p) && !Contains(kind, "message/external-body") && "http" <= location ==> found != [])
  {
    hide Contains, Lower, Strip, SearchValue, FilenameOf, Base64.Decoded, NoSpace;
  }

  // An attachment without any name is called "file", one without a type is of unknown bytes.
  lemma NamelessIs(p: Part)
    requires AttachmentIn(p) != []
    ensures AttachmentIn(p)[0].filename != "" && (!AttachmentIn(p)[0].ByUrl? ==> AttachmentIn(p)[0].mime != "")
    ensures FilenameOf(Get(p.0, "content-disposition"), Get(p.0, "content-type")) == "" ==>
              AttachmentIn(p)[0].filename == "file"
  {
    hide Contains, Lower, Strip, SearchValue, FilenameOf, Base64.Decoded, NoSpace;
  }

  function Parse(text: string): Parsed {
    var (block, rest) := Split(text);
    var headers := Headers(block, map[]);
    var multipart := Contains(Lower(Get(headers, "content-type")), "multipart");
    var parts := if multipart then Parts(block, rest) else [];
    Parsed(
      Get(headers, "from"), Get(headers, "to"), Get(headers, "subject"), Get(headers, "date"),
      Get(headers, "message-id"), Get(headers, "in-reply-to"), Get(headers, "references"),
      TextOf(parts, rest), headers, AttachmentsOf(parts))
  }

  method ParseHeaders(s: string) returns (found: map<string, string>)
    ensures found == Headers(s, map[])
  {
    hide HeaderAt, Noted, Before;
    found := map[];
    var i := 0;
    while i < |s|
      invariant i <= |s| && Headers(s[i..], found) == Headers(s, map[])
    {
      var end: nat;
      match HeaderAt(s[i..]) {
        case Some((name, value, e)) =>
          found := Noted(found, name, value);
          end := i + e;
        case None =>
          end := i + |Before(s[i..], '\n')|;
      }
      assert s[i..][end - i..] == s[end..];
      i := if end < |s| then end + 1 else |s|;
      assert NextLine(s[end..]) == s[i..];
    }
    assert s[i..] == "";
  }

  method ReadPart(text: string) returns (p: Option<Part>)
    ensures p == PartOf(text)
  {
    var piece := StripBy(text, IsEdge);
    if piece == "" || piece == "--" {
      return None;
    }
    var (head, rest) := SplitFirst(piece, "\n\n");
    var headers := ParseHeaders(head);
    return Some((headers, rest));
  }

  method ParseParts(headerBlock: string, body: string) returns (out: seq<Part>)
    ensures out == Parts(headerBlock, body)
  {
    hide PartOf, SearchBoundary, SplitOn;
    var boundary := SearchBoundary(headerBlock);
    if boundary == "" {
      return [];
    }
    var pieces := SplitOn(body, "--" + boundary);
    out := [];
    for i := 0 to |pieces|
      invariant out + PartsOf(pieces[i..]) == PartsOf(pieces)
    {
      var part := ReadPart(pieces[i]);
      ghost var before := out;
      if part.Some? {
        out := out + [part.value];
      }
      assert pieces[i..][0] == pieces[i] && pieces[i..][1..] == pieces[i + 1..];
      assert out + PartsOf(pieces[i + 1..]) == before + PartsOf(pieces[i..]);
    }
    assert pieces[|pieces|..] == [];
  }

  // The body is the first text part that is not an attachment.
  method ChooseText(parts: seq<Part>, otherwise: string) returns (body: string)
    ensures body == TextOf(parts, otherwise)
  {
    hide IsText;
    for i := 0 to |parts|
      invariant TextOf(parts[i..], otherwise) == TextOf(parts, otherwise)
    {
      if IsText(parts[i]) {
        return parts[i].1;
      }
      assert parts[i..][1..] == parts[i + 1..];
    }
    return otherwise;
  }

  method CollectAttachments(parts: seq<Part>) returns (attachments: seq<Attachment>)
    ensures attachments == AttachmentsOf(parts)
  {
    hide IsAttachment, AttachmentOf, AttachmentIn;
    attachments := [];
    for i := 0 to |parts|
      invariant attachments + AttachmentsOf(parts[i..]) == AttachmentsOf(parts)
    {
      ghost var before := attachments;
      if IsAttachment(parts[i]) {
        var a := AttachmentOf(parts[i]);
        if a.Some? {
          attachments := attachments + [a.value];
        }
      }
      assert attachments == before + AttachmentIn(parts[i]) by { AttachmentInIs(parts[i]); }
      assert parts[i..][0] == parts[i] && parts[i..][1..] == parts[i + 1..];
    }
    assert parts[|parts|..] == [];
  }

  lemma AttachmentInIs(p: Part)
    ensures AttachmentIn(p) == if IsAttachment(p) && AttachmentOf(p).Some? then [AttachmentOf(p).value] else []
  {
    hide IsAttachment, AttachmentOf;
  }

  method ParseMail(text: string) returns (p: Parsed)
    ensures p == Parse(text)
  {
    hide Headers, Split, Parts, IsText, AttachmentIn, Contains, Lower;
    var (block, body) := Split(text);
    var headers := ParseHeaders(block);
    var attachments: seq<Attachment> := [];
    if Contains(Lower(Get(headers, "content-type")), "multipart") {
      var parts := ParseParts(block, body);
      body := ChooseText(parts, body);
      attachments := CollectAttachments(parts);
    }
    return Parsed(
      Get(headers, "from"), Get(headers, "to"), Get(headers, "subject"), Get(headers, "date"),
      Get(headers, "message-id"), Get(headers, "in-reply-to"), Get(headers, "references"),
      body, headers, attachments);
  }
}
