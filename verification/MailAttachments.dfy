// Reading a printed mail with attachments: every part comes back, in order.
module MailAttachments {
  import opened Wrappers
  import opened Text
  import opened MailMessage
  import opened MailRoundTrip
  import opened Multipart
  import Base64
  import Octets

  // ---- pattern searches ------------------------------------------------------------------------------

  // Nothing before `s` can start the key.
  lemma {:induction false} SearchSkip(t: string, s: string, key: string, stop: char -> bool)
    requires key != "" && forall c <- t :: FoldChar(c) != key[0]
    ensures SearchValue(t + s, key, stop) == SearchValue(s, key, stop)
  {
    hide FoldChar, Unquoted;
    if t == "" {
      assert t + s == s;
    } else {
      assert (t + s)[0] == t[0] && t[0] in t && (t + s)[1..] == t[1..] + s;
      SearchSkip(t[1..], s, key, stop);
    }
  }

  // A key directly before a quoted value gives that value.
  lemma SearchHit(printed: string, key: string, v: string, tail: string, stop: char -> bool)
    requires StartsFolded(printed, key) && |printed| == |key|
    requires v != "" && (forall c <- v :: !stop(c)) && tail != "" && stop(tail[0])
    ensures SearchValue(printed + "\"" + v + tail, key, stop) == Some(v)
  {
    hide FoldChar, Until;
    var s := printed + "\"" + v + tail;
    assert s[|key|..] == "\"" + (v + tail);
    assert ("\"" + (v + tail))[1..] == v + tail;
    UntilStop(v, tail, stop);
    assert forall i :: 0 <= i < |key| ==> s[i] == printed[i];
    assert StartsFolded(s, key);
  }

  // ---- what a section reads as ---------------------------------------------------------------------

  // A filename that survives in a quoted parameter, up to its double quotes.
  predicate PlainName(v: string) {
    v != "" && HeaderValue(v) && '\r' !in v
  }

  predicate GoodUrl(a: Outgoing) {
    && PlainName(a.Filename()) && HeaderValue(a.Mime()) && HeaderValue(a.sha256)
    && a.url != "" && forall c <- a.url :: c != '"' && !IsSpace(c)
  }

  predicate GoodInline(a: Outgoing) {
    && PlainName(a.Filename()) && HeaderValue(a.Mime()) && ';' !in a.Mime()
    && !Contains(Lower(InlineType(a.Mime(), SingleQuoted(a.Filename()))), "message/external-body")
  }

  lemma UrlEnds()
    ensures forall c :: EndsUrl(c) <==> c == '"' || IsSpace(c)
  {
  }

  lemma SingleQuotedKeeps(v: string)
    requires PlainName(v)
    ensures PlainName(SingleQuoted(v)) && forall c <- SingleQuoted(v) :: !EndsFilename(c)
  {
    var r := SingleQuoted(v);
    forall i | 0 <= i < |r| ensures !EndsFilename(r[i]) {
      assert v[i] in v;
    }
  }

  lemma QuotedIsValue(head: string, v: string)
    requires head != "" && !IsSpace(head[0]) && '\n' !in head && '\n' !in v
    ensures HeaderValue(head + v + "\"")
  {
  }

  lemma PartNames()
    ensures Lower("Content-Type") == "content-type" && Lower("Content-Disposition") == "content-disposition"
    ensures Lower("Content-Transfer-Encoding") == "content-transfer-encoding"
  {
  }

  lemma UrlPartNames()
    ensures Lower("X-Attachment-Mime") == "x-attachment-mime"
    ensures Lower("X-Attachment-Sha256") == "x-attachment-sha256"
  {
  }

  lemma LowerKeys()
    ensures Lower("attachment") == "attachment" && Lower("message/external-body") == "message/external-body"
    ensures Lower("text/plain") == "text/plain" && Lower("multipart") == "multipart"
  {
  }

  lemma PartNamesAreNames()
    ensures forall name <- {"Content-Type", "Content-Disposition", "X-Attachment-Mime", "X-Attachment-Sha256",
                            "Content-Transfer-Encoding"} :: AllIn(name, IsNameChar)
  {
  }

  lemma {:induction false} BlockEnd(lines: seq<Line>)
    requires lines != []
    ensures var l := lines[|lines| - 1].Printed();
      l != "" && Block(lines) != "" && Block(lines)[|Block(lines)| - 1] == l[|l| - 1]
  {
    if |lines| > 1 {
      BlockEnd(lines[1..]);
    }
  }

  lemma DispositionRead(name: string)
    requires name != "" && forall c <- name :: !EndsFilename(c)
    ensures SearchValue(Disposition(name), "filename=", EndsFilename) == Some(name)
    ensures Contains(Lower(Disposition(name)), "attachment")
  {
    hide Lower, SearchValue;
    var s := "filename=" + "\"" + name + "\"";
    assert Disposition(name) == "attachment; " + s;
    SearchSkip("attachment; ", s, "filename=", EndsFilename);
    SearchHit("filename=", "filename=", name, "\"", EndsFilename);
    LowerKeys();
    LowerPrefix("attachment", "attachment", "; " + s);
    assert Disposition(name) == "attachment" + ("; " + s);
  }

  lemma LowerPrefix(printed: string, key: string, rest: string)
    requires Lower(printed) == key
    ensures Contains(Lower(printed + rest), key)
  {
    LowerConcat(printed, rest);
    assert key <= Lower(printed + rest);
  }

  lemma UrlTypeRead(url: string, name: string)
    requires url != "" && forall c <- url :: !EndsUrl(c)
    ensures SearchValue(UrlType(url, name), "url=", EndsUrl) == Some(url)
    ensures Contains(Lower(UrlType(url, name)), "message/external-body")
  {
    hide Lower, SearchValue, UrlType, FoldChar, StartsFolded;
    UrlKeys();
    var tail := "\"; name=\"" + name + "\"";
    var hit := "URL=" + "\"" + url + tail;
    var near := "RL; " + hit;
    SearchHit("URL=", "url=", url, tail, EndsUrl);
    SearchSkip("RL; ", hit, "url=", EndsUrl);
    SearchPast("U", near);
    SearchSkip("message/external-body; access-type=", "U" + near, "url=", EndsUrl);
    UrlTypeShape(url, name);
    LowerKeys();
    LowerPrefix("message/external-body", "message/external-body", "; access-type=" + ("U" + near));
  }

  lemma UrlKeys()
    ensures StartsFolded("URL=", "url=")
    ensures forall c <- "message/external-body; access-type=" :: FoldChar(c) != 'u'
    ensures forall c <- "RL; " :: FoldChar(c) != 'u'
  {
  }

  lemma UrlTypeShape(url: string, name: string)
    ensures var near := "RL; " + ("URL=" + "\"" + url + ("\"; name=\"" + name + "\""));
      && UrlType(url, name) == "message/external-body; access-type=" + ("U" + near)
      && UrlType(url, name) == "message/external-body" + ("; access-type=" + ("U" + near))
  {
    UrlTypeFront();
    JoinFront("message/external-body", "; access-type=", "U", "RL; ", "URL=" + "\"",
              url + ("\"; name=\"" + name + "\""));
    Associative("URL=" + "\"", url, "\"; name=\"" + name + "\"");
    Associative("message/external-body; access-type=URL; URL=\"", url, "\"; name=\"" + name + "\"");
    assert UrlType(url, name) == "message/external-body; access-type=URL; URL=\"" + url + ("\"; name=\"" + name + "\"");
  }

  lemma UrlTypeFront()
    ensures "message/external-body; access-type=URL; URL=\""
            == ("message/external-body" + "; access-type=") + ("U" + ("RL; " + ("URL=" + "\"")))
    ensures "message/external-body; access-type=" == "message/external-body" + "; access-type="
  {
  }

  lemma JoinFront(a: string, b: string, c: string, d: string, e: string, tail: string)
    ensures ((a + b) + (c + (d + e))) + tail == (a + b) + (c + (d + (e + tail)))
    ensures (a + b) + (c + (d + (e + tail))) == a + (b + (c + (d + (e + tail))))
  {
  }

  // "URL;" is not the key "URL=".
  lemma SearchPast(u: string, near: string)
    requires |u| == 1 && |near| >= 3 && near[2] == ';'
    ensures SearchValue(u + near, "url=", EndsUrl) == SearchValue(near, "url=", EndsUrl)
  {
    assert (u + near)[3] == ';' && (u + near)[1..] == near;
  }

  lemma UrlDict(a: Outgoing)
    ensures var name := SingleQuoted(a.Filename());
      Dict(UrlSection(a).lines)
      == map["content-type" := Strip(" " + UrlType(a.url, name)),
             "content-disposition" := Strip(" " + Disposition(name)),
             "x-attachment-mime" := Strip(" " + a.Mime()),
             "x-attachment-sha256" := Strip(if a.sha256 != "" then " " + a.sha256 else "")]
  {
    hide Lower, Strip, SingleQuoted, UrlType, Disposition, Outgoing.Filename, Outgoing.Mime;
    PartNames();
    UrlPartNames();
    var lines := UrlSection(a).lines;
    assert lines[..1] == [] + [lines[0]] && lines[..2] == lines[..1] + [lines[1]]
           && lines[..3] == lines[..2] + [lines[2]] && lines == lines[..3] + [lines[3]];
    DictSnoc([], lines[0]);
    DictSnoc(lines[..1], lines[1]);
    DictSnoc(lines[..2], lines[2]);
    DictSnoc(lines[..3], lines[3]);
  }

  lemma InlineDict(a: Outgoing)
    ensures var name := SingleQuoted(a.Filename());
      Dict(InlineSection(a).lines)
      == map["content-type" := Strip(" " + InlineType(a.Mime(), name)),
             "content-disposition" := Strip(" " + Disposition(name)),
             "content-transfer-encoding" := Strip(" base64")]
  {
    hide Lower, Strip, SingleQuoted, InlineType, Disposition, Outgoing.Filename, Outgoing.Mime;
    PartNames();
    var lines := InlineSection(a).lines;
    assert lines[..1] == [] + [lines[0]] && lines[..2] == lines[..1] + [lines[1]] && lines == lines[..2] + [lines[2]];
    assert " " + "base64" == " base64";
    DictSnoc([], lines[0]);
    DictSnoc(lines[..1], lines[1]);
    DictSnoc(lines[..2], lines[2]);
  }

  lemma DispositionIsValue(name: string)
    requires '\n' !in name
    ensures HeaderValue(Disposition(name))
  {
    QuotedIsValue("attachment; filename=\"", name);
  }

  lemma UrlTypeIsValue(url: string, name: string)
    requires '\n' !in url && '\n' !in name
    ensures HeaderValue(UrlType(url, name))
  {
    hide IsSpace;
    var front := "message/external-body; access-type=URL; URL=\"";
    FrontHasNoNewline();
    var head := front + url + "\"; name=\"";
    assert head[0] == front[0] == 'm';
    LettersAreNoSpace();
    QuotedIsValue(head, name);
  }

  lemma FrontHasNoNewline()
    ensures var front := "message/external-body; access-type=URL; URL=\"";
      '\n' !in front && front[0] == 'm'
    ensures '\n' !in "\"; name=\""
  {
    var a, b := "message/external-body; ", "access-type=URL; URL=\"";
    assert '\n' !in a && '\n' !in b;
    assert "message/external-body; access-type=URL; URL=\"" == a + b;
  }

  lemma LettersAreNoSpace()
    ensures !IsSpace('m') && !IsSpace('t') && !IsSpace('8')
  {
  }

  lemma InlineTypeIsValue(mime: string, name: string)
    requires mime != "" && HeaderValue(mime) && '\n' !in name
    ensures HeaderValue(InlineType(mime, name))
  {
    QuotedIsValue(mime + "; name=\"", name);
  }

  lemma NoNewlineInUrl(url: string)
    requires forall c <- url :: !EndsUrl(c)
    ensures '\n' !in url
  {
    assert EndsUrl('\n');
  }

  lemma UrlReadable(a: Outgoing)
    requires GoodUrl(a)
    ensures ReadableSection(UrlSection(a))
  {
    hide Lower, Strip, SingleQuoted, UrlType, Disposition, Outgoing.Filename, Outgoing.Mime, Block, EndsUrl, AllIn;
    var name := SingleQuoted(a.Filename());
    SingleQuotedKeeps(a.Filename());
    UrlEnds();
    NoNewlineInUrl(a.url);
    UrlTypeIsValue(a.url, name);
    DispositionIsValue(name);
    PartNamesAreNames();
    var lines := UrlSection(a).lines;
    BlockEnd(lines);
    assert lines[3].Printed() == "X-Attachment-Sha256:" + lines[3].rest;
  }

  lemma InlineReadable(a: Outgoing)
    requires GoodInline(a)
    ensures ReadableSection(InlineSection(a))
  {
    hide Lower, Strip, SingleQuoted, InlineType, Disposition, Outgoing.Filename, Outgoing.Mime, Block, AllIn, Contains;
    var name := SingleQuoted(a.Filename());
    SingleQuotedKeeps(a.Filename());
    MimeIsThere(a);
    InlineTypeIsValue(a.Mime(), name);
    DispositionIsValue(name);
    PartNamesAreNames();
    var lines := InlineSection(a).lines;
    BlockEnd(lines);
    assert lines[2].Printed() == "Content-Transfer-Encoding:" + " base64";
  }

  lemma MimeIsThere(a: Outgoing)
    ensures a.Mime() != "" && a.Filename() != ""
  {
  }

  const TEXT_TYPE := "text/plain; charset=utf-8"

  lemma TextTypeIsValue()
    ensures HeaderValue(TEXT_TYPE)
  {
    LettersAreNoSpace();
  }

  lemma BodyReadable(text: string)
    ensures ReadableSection(BodySection(text))
    ensures Dict(BodySection(text).lines) == map["content-type" := TEXT_TYPE]
  {
    hide Lower, Strip, Block, AllIn, HeaderValue;
    var lines := BodySection(text).lines;
    assert lines == [Header("Content-Type", TEXT_TYPE)];
    BodyLineValid(lines);
    PartNames();
    assert [] + [lines[0]] == lines;
    DictSnoc([], lines[0]);
    TextTypeIsValue();
    StripValue(TEXT_TYPE);
  }

  lemma BodyLineValid(lines: seq<Line>)
    requires lines == [Header("Content-Type", TEXT_TYPE)]
    ensures ValidLines(lines) && EndsSolid(lines)
  {
    hide AllIn, Block;
    PartNamesAreNames();
    BlockEnd(lines);
    assert lines[0].Printed() == "Content-Type:" + (" " + TEXT_TYPE);
    TextTypeIsValue();
  }

  // ---- attachments come back -------------------------------------------------------------------------

  function ReceivedUrl(a: Outgoing): Attachment {
    ByUrl(SingleQuoted(a.Filename()), a.Mime(), a.url, a.sha256)
  }

  // Inline data comes back decoded and encoded again, white space removed; data that is not base64
  // is dropped with its attachment.
  function ReceivedInline(a: Outgoing): seq<Attachment> {
    match Base64.Decoded(NoSpace(a.data))
    case Some(bytes) => [Inline(SingleQuoted(a.Filename()), a.Mime(), Base64.Encoded(bytes))]
    case None => []
  }

  function ReceivedUrls(atts: seq<Outgoing>): seq<Attachment> {
    if atts == [] then [] else [ReceivedUrl(atts[0])] + ReceivedUrls(atts[1..])
  }

  function ReceivedInlines(atts: seq<Outgoing>): seq<Attachment> {
    if atts == [] then [] else ReceivedInline(atts[0]) + ReceivedInlines(atts[1..])
  }

  lemma NameRead(name: string, contentType: string)
    requires PlainName(name) && forall c <- name :: !EndsFilename(c)
    ensures FilenameOf(Disposition(name), contentType) == name
  {
    hide Disposition, SearchValue, Strip;
    DispositionRead(name);
    TrimmedStaysSame(name);
  }

  lemma UrlPartRead(a: Outgoing)
    requires GoodUrl(a)
    ensures var p := ReadSection(UrlSection(a)); IsAttachment(p) && AttachmentIn(p) == [ReceivedUrl(a)]
  {
    hide Lower, Strip, SingleQuoted, UrlType, Disposition, Outgoing.Filename, Outgoing.Mime, UrlSection, RStripBy;
    hide SearchValue, Contains, FilenameOf, HeaderValue, PlainName, Dict;
    var name := SingleQuoted(a.Filename());
    SingleQuotedKeeps(a.Filename());
    UrlEnds();
    NoNewlineInUrl(a.url);
    NameHasNoNewline(name);
    UrlDict(a);
    UrlTypeIsValue(a.url, name);
    DispositionIsValue(name);
    StripValue(UrlType(a.url, name));
    StripValue(Disposition(name));
    StripValue(a.Mime());
    StripValue(a.sha256);
    DispositionRead(name);
    UrlTypeRead(a.url, name);
    NameRead(name, UrlType(a.url, name));
    MimeIsThere(a);
    StripShort(a.Mime());
    StripShort(a.sha256);
  }

  lemma NameHasNoNewline(name: string)
    requires PlainName(name)
    ensures '\n' !in name && name != ""
  {
  }

  lemma StripShort(v: string)
    requires HeaderValue(v)
    ensures Strip(v) == v && Strip("") == ""
  {
    TrimmedStaysSame(v);
  }

  lemma InlineBody(data: string)
    ensures NoSpace(RStripBy(Wrapped(Without(data, '\n')), IsEdge)) == NoSpace(data)
  {
    NoSpaceRStrip(Wrapped(Without(data, '\n')), IsEdge);
    NoSpaceWrapped(Without(data, '\n'));
    NoSpaceWithout(data);
  }

  lemma {:induction false} NoSpaceWrapped(data: string)
    ensures NoSpace(Wrapped(data)) == NoSpace(data)
    decreases |data|
  {
    if |data| > 76 {
      NoSpaceWrapped(data[76..]);
      NoSpaceConcat(data[..76] + "\n", Wrapped(data[76..]));
      NoSpaceConcat(data[..76], "\n");
      NoSpaceConcat(data[..76], data[76..]);
      assert data[..76] + data[76..] == data;
      assert NoSpace("\n") == "" by { assert "\n"[1..] == ""; }
    }
  }

  lemma InlinePartRead(a: Outgoing)
    requires GoodInline(a)
    ensures var p := ReadSection(InlineSection(a));
      IsAttachment(p) && AttachmentIn(p) == ReceivedInline(a)
  {
    hide Lower, Strip, SingleQuoted, InlineType, Disposition, Outgoing.Filename, Outgoing.Mime, RStripBy;
    hide SearchValue, Contains, FilenameOf, HeaderValue, PlainName, Dict, NoSpace, Wrapped, Without, Base64.Decoded;
    var name := SingleQuoted(a.Filename());
    SingleQuotedKeeps(a.Filename());
    NameHasNoNewline(name);
    MimeIsThere(a);
    InlineDict(a);
    InlineTypeIsValue(a.Mime(), name);
    DispositionIsValue(name);
    StripValue(InlineType(a.Mime(), name));
    StripValue(Disposition(name));
    DispositionRead(name);
    NameRead(name, InlineType(a.Mime(), name));
    MimeRead(a.Mime(), name);
    InlineBody(a.data);
    StripShort(a.Mime());
  }

  lemma MimeRead(mime: string, name: string)
    requires HeaderValue(mime) && ';' !in mime
    ensures Strip(Before(InlineType(mime, name), ';')) == mime
  {
    hide Strip;
    var tail := "; name=\"" + name + "\"";
    assert InlineType(mime, name) == mime + tail && tail[0] == ';';
    BeforeStop(mime, tail, ';');
    TrimmedStaysSame(mime);
  }

  // ---- the whole mail ----------------------------------------------------------------------------------

  lemma {:induction false} BlockSnoc(lines: seq<Line>, last: Line)
    requires lines != []
    ensures Block(lines + [last]) == Block(lines) + "\n" + last.Printed()
  {
    if |lines| == 1 {
      assert (lines + [last])[1..] == [last];
    } else {
      assert (lines + [last])[1..] == lines[1..] + [last];
      BlockSnoc(lines[1..], last);
    }
  }

  function MultipartType(b: string): string {
    "multipart/mixed; boundary=\"" + b + "\""
  }

  lemma MultipartLineValid(b: string)
    requires IsBoundary(b)
    ensures ValidLine(MultipartLine(b)) && MultipartLine(b).rest != ""
    ensures HeaderValue(MultipartType(b))
  {
    hide AllIn, Lower, Contains, IsSpace;
    PartNamesAreNames();
    NamesHaveNoNewline(b);
    var front := "multipart/mixed; boundary=\"";
    assert front[0] == 'm' && !IsSpace('m') by { LettersAreNoSpace(); }
    QuotedIsValue(front, b);
  }

  lemma MultipartTypeRead(b: string)
    ensures Contains(Lower(MultipartType(b)), "multipart")
  {
    hide Lower, Contains;
    var rest := "/mixed; boundary=\"" + (b + "\"");
    assert MultipartType(b) == "multipart" + rest;
    LowerKeys();
    LowerPrefix("multipart", "multipart", rest);
  }

  lemma {:induction false} UrlsRead(atts: seq<Outgoing>, rest: seq<Section>)
    requires forall a <- atts :: GoodUrl(a)
    ensures AttachmentsOf(ReadSections(UrlSections(atts) + rest))
            == ReceivedUrls(atts) + AttachmentsOf(ReadSections(rest))
    decreases |atts|
  {
    hide GoodUrl, UrlSection, ReadSection, IsAttachment, AttachmentIn, ReceivedUrl;
    if atts == [] {
      assert UrlSections(atts) + rest == rest;
    } else {
      var all := UrlSections(atts) + rest;
      assert atts[0] in atts && all[0] == UrlSection(atts[0]) && all[1..] == UrlSections(atts[1..]) + rest;
      UrlPartRead(atts[0]);
      UrlsRead(atts[1..], rest);
    }
  }

  lemma {:induction false} InlinesRead(atts: seq<Outgoing>)
    requires forall a <- atts :: GoodInline(a)
    ensures AttachmentsOf(ReadSections(InlineSections(atts))) == ReceivedInlines(atts)
    decreases |atts|
  {
    hide GoodInline, InlineSection, ReadSection, IsAttachment, AttachmentIn, ReceivedInline;
    if atts != [] {
      var all := InlineSections(atts);
      assert atts[0] in atts && all[0] == InlineSection(atts[0]) && all[1..] == InlineSections(atts[1..]);
      InlinePartRead(atts[0]);
      InlinesRead(atts[1..]);
    }
  }

  lemma TextTypeIsText()
    ensures Contains(Lower(TEXT_TYPE), "text/plain")
  {
    hide Lower, Contains;
    LowerKeys();
    LowerPrefix("text/plain", "text/plain", "; charset=utf-8");
    assert TEXT_TYPE == "text/plain" + "; charset=utf-8";
  }

  lemma BodyPartRead(text: string)
    ensures var p := ReadSection(BodySection(text)); IsText(p) && AttachmentIn(p) == [] && p.1 == RStripBy(text, IsEdge)
  {
    hide Lower, RStripBy, Contains, Dict, ReadableSection;
    BodyReadable(text);
    var plain := TEXT_TYPE;
    assert Contains(Lower(plain), "text/plain") by { TextTypeIsText(); }
    NothingInEmpty();
    assert Dict(BodySection(text).lines) == map["content-type" := plain];
    assert BodySection(text).content == text;
  }

  // The boundary a reader takes: the first one the header block names, be it in a Subject.
  function Chosen(l: Letter, s: Stamp): string {
    var named := SearchBoundary(Block(HeaderLines(l, s)));
    if named == "" then s.boundary else named
  }

  predicate Sendable(l: Letter, s: Stamp) {
    HasHeaderValues(l, s) && Packable(l, s)
  }

  predicate Packable(l: Letter, s: Stamp) {
    IsBoundary(s.boundary) && Enclosable(l, s)
  }

  predicate Enclosable(l: Letter, s: Stamp) {
    && (forall a <- WithUrl(l.attachments) :: GoodUrl(a))
    && (forall a <- WithoutUrl(l.attachments) :: GoodInline(a))
    && (forall section <- Sections(l) :: !Contains(section.Printed(), "--" + Chosen(l, s)))
  }

  lemma SectionsReadable(l: Letter, s: Stamp)
    requires Sendable(l, s)
    ensures forall section <- Sections(l) :: ReadableSection(section)
  {
    hide BodyText, WithUrl, WithoutUrl, BodySection, UrlSection, InlineSection, ReadableSection, GoodUrl, GoodInline;
    hide Contains, Section.Printed, HasHeaderValues, IsBoundary, Chosen;
    hide UrlSections, InlineSections;
    BodyReadable(BodyText(l));
    UrlsReadable(WithUrl(l.attachments));
    InlinesReadable(WithoutUrl(l.attachments));
  }

  lemma UrlsReadable(atts: seq<Outgoing>)
    requires forall a <- atts :: GoodUrl(a)
    ensures forall section <- UrlSections(atts) :: ReadableSection(section)
  {
    hide UrlSection, ReadableSection, GoodUrl;
    forall i | 0 <= i < |atts| ensures ReadableSection(UrlSections(atts)[i]) {
      assert atts[i] in atts;
      UrlReadable(atts[i]);
    }
  }

  lemma InlinesReadable(atts: seq<Outgoing>)
    requires forall a <- atts :: GoodInline(a)
    ensures forall section <- InlineSections(atts) :: ReadableSection(section)
  {
    hide InlineSection, ReadableSection, GoodInline;
    forall i | 0 <= i < |atts| ensures ReadableSection(InlineSections(atts)[i]) {
      assert atts[i] in atts;
      InlineReadable(atts[i]);
    }
  }

  lemma {:induction false} AttachmentsConcat(a: seq<Part>, b: seq<Part>)
    ensures AttachmentsOf(a + b) == AttachmentsOf(a) + AttachmentsOf(b)
  {
    hide AttachmentIn;
    if a == [] {
      assert a + b == b;
    } else {
      assert (a + b)[1..] == a[1..] + b;
      AttachmentsConcat(a[1..], b);
    }
  }

  lemma NoAttachmentInClosing(y: string)
    ensures AttachmentsOf(Closing(y)) == []
  {
    NothingInPlainPart();
  }

  // What the parts of a letter give: its body text and its attachments.
  lemma SectionsGive(l: Letter, s: Stamp, y: string, otherwise: string)
    requires Sendable(l, s)
    ensures var parts := ReadSections(Sections(l)) + Closing(y);
      && TextOf(parts, otherwise) == RStripBy(BodyText(l), IsEdge)
      && AttachmentsOf(parts) == ReceivedUrls(WithUrl(l.attachments)) + ReceivedInlines(WithoutUrl(l.attachments))
  {
    hide BodyText, WithUrl, WithoutUrl, BodySection, UrlSections, InlineSections, GoodUrl, GoodInline, ReadSection;
    hide IsText, IsAttachment, AttachmentOf, AttachmentIn, Contains, Section.Printed, HasHeaderValues, IsBoundary;
    hide Chosen, RStripBy, Closing;
    var urls, inlines := WithUrl(l.attachments), WithoutUrl(l.attachments);
    var rest := UrlSections(urls) + InlineSections(inlines);
    assert Sections(l)[0] == BodySection(BodyText(l)) && Sections(l)[1..] == rest;
    BodyPartRead(BodyText(l));
    UrlsRead(urls, InlineSections(inlines));
    InlinesRead(inlines);
    AttachmentsConcat(ReadSections(Sections(l)), Closing(y));
    NoAttachmentInClosing(y);
  }

  lemma ContentTypeStartsAfresh(b: string)
    ensures StartsAfresh(MultipartLine(b).Printed())
  {
    var s := MultipartLine(b).Printed();
    assert s[0] == 'C' && !IsSpace('C');
  }

  lemma MultipartHeaders(l: Letter, s: Stamp)
    requires Sendable(l, s)
    ensures var lines := HeaderLines(l, s) + [MultipartLine(s.boundary)];
      && ValidLines(lines)
      && Get(Dict(lines), "content-type") == MultipartType(s.boundary)
      && (forall k :: k != "content-type" ==> Get(Dict(lines), k) == Get(Dict(HeaderLines(l, s)), k))
      && SearchBoundary(Block(lines)) == Chosen(l, s) != ""
  {
    hide HasHeaderValues, IsBoundary, GoodUrl, GoodInline, Contains, Section.Printed, Sections, StartsAfresh;
    hide HeaderLines, Block, Dict, Lower, Strip, HeaderValue, SearchBoundary, ValidLine;
    var lines, last := HeaderLines(l, s), MultipartLine(s.boundary);
    LetterLinesValid(l, s);
    MultipartLineValid(s.boundary);
    DictSnoc(lines, last);
    PartNames();
    StripValue(MultipartType(s.boundary));
    BlockSnoc(lines, last);
    ContentTypeStartsAfresh(s.boundary);
    FirstBoundary(Block(lines), last.Printed());
    BoundaryFound(s.boundary);
    NotEmpty(s.boundary);
    forall i | 0 <= i < |lines| ensures lines[i].rest != "" {
      assert lines[i] in lines;
    }
  }

  predicate HeadersComeBack(l: Letter, s: Stamp, p: Parsed) {
    && p.from == l.from && p.to == l.to && p.subject == l.subject && p.date == s.date
    && p.messageId == MessageId(l, s) && p.inReplyTo == l.inReplyTo && p.references == l.references
  }

  // The text of a letter with attachments is read as its headers and the parts at the chosen boundary.
  lemma LetterIsRead(l: Letter, s: Stamp)
    requires l.attachments != [] && Sendable(l, s)
    ensures var p := Parse(MailText(l, s));
      var body := MultipartText(s.boundary, Sections(l));
      var parts := PartsOf(SplitOn(body, "--" + Chosen(l, s)));
      HeadersComeBack(l, s, p) && p.body == TextOf(parts, body) && p.attachments == AttachmentsOf(parts)
  {
    hide GoodUrl, GoodInline, Section.Printed, Sections, MultipartText, WithUrl, WithoutUrl, Chosen;
    hide HeaderLines, Block, Dict, Lower, Strip, HeaderValue, SearchBoundary, ValidLine, Headers, Split, MessageId;
    hide TextOf, AttachmentsOf, PartsOf, SplitOn, Contains, IsBoundary;
    var lines := HeaderLines(l, s) + [MultipartLine(s.boundary)];
    MultipartHeaders(l, s);
    SplitAtBlank(lines, MultipartText(s.boundary, Sections(l)));
    BlockIsRead(lines);
    LetterHeadersRead(l, s);
    MultipartTypeRead(s.boundary);
    StripValue(l.from);
    StripValue(l.to);
    StripValue(l.subject);
    StripValue(s.date);
    StripValue(MessageId(l, s));
    StripValue(l.inReplyTo);
    StripValue(l.references);
  }

  predicate AllComesBack(l: Letter, s: Stamp, p: Parsed) {
    && HeadersComeBack(l, s, p)
    && p.body == RStripBy(BodyText(l), IsEdge)
    && p.attachments == ReceivedUrls(WithUrl(l.attachments)) + ReceivedInlines(WithoutUrl(l.attachments))
  }

  // Where the boundary chosen begins the letter's own, every section is read.
  lemma OwnBoundary(l: Letter, s: Stamp)
    requires l.attachments != [] && Sendable(l, s) && Chosen(l, s) <= s.boundary
    ensures AllComesBack(l, s, Parse(MailText(l, s)))
  {
    hide Chosen, HeadersComeBack, Parse, MailText, RStripBy, WithUrl, WithoutUrl, Sections, Section.Printed, IsBoundary;
    hide GoodUrl, GoodInline, MultipartText, TextOf, AttachmentsOf, PartsOf, SplitOn, Contains, ReadableSection;
    hide ReadSections, Closing, BodyText, HasHeaderValues;
    var x := Chosen(l, s);
    var y := s.boundary[|x|..];
    assert x + y == s.boundary;
    LetterIsRead(l, s);
    ChosenIsThere(l, s);
    SectionsReadable(l, s);
    PartsRead(x, y, Sections(l));
    SectionsGive(l, s, y, MultipartText(s.boundary, Sections(l)));
  }

  lemma ChosenIsThere(l: Letter, s: Stamp)
    requires Sendable(l, s)
    ensures Chosen(l, s) != ""
    ensures !(Chosen(l, s) <= s.boundary) ==> '\n' !in Chosen(l, s)
  {
    hide SearchBoundary, HasHeaderValues, GoodUrl, GoodInline, Contains, Sections, IsBoundary, EndsBoundary;
    NotEmpty(s.boundary);
    ChosenHasNoStop(Block(HeaderLines(l, s)));
    assert EndsBoundary('\n') by { NewlineEnds(); }
  }

  lemma NewlineEnds()
    ensures EndsBoundary('\n')
  {
  }

  // Where it does not, the whole body is taken for text, and every attachment is lost.
  lemma ForeignBoundary(l: Letter, s: Stamp)
    requires l.attachments != [] && Sendable(l, s) && !(Chosen(l, s) <= s.boundary)
    ensures var p := Parse(MailText(l, s)); p.attachments == [] && p.body != RStripBy(BodyText(l), IsEdge)
  {
    hide Chosen, HeadersComeBack, Parse, MailText, RStripBy, Section.Printed, IsBoundary, AttachmentIn, IsText, Dict;
    hide GoodUrl, GoodInline, MultipartText, PartsOf, SplitOn, Contains, ReadableSection, BodyText, HasHeaderValues;
    hide BodySection, UrlSection, InlineSection;
    var text := BodyText(l);
    LetterIsRead(l, s);
    ChosenIsThere(l, s);
    SectionsReadable(l, s);
    TwoSections(l);
    var z, extra := ForeignParts(s.boundary, Chosen(l, s), Sections(l));
    var first: Part := (Dict(BodySection(text).lines), RStripBy(text + "\n" + z, IsEdge));
    assert BodySection(text).content == text by { BodyContent(text); }
    TextPart(text, first.1);
    MoreRemains(text, z);
    NoneIn(extra);
    assert ([first] + extra)[0] == first && ([first] + extra)[1..] == extra;
  }

  lemma BodyContent(text: string)
    ensures BodySection(text).content == text
  {
  }

  lemma {:induction false} NoneIn(parts: seq<Part>)
    requires forall p <- parts :: AttachmentIn(p) == []
    ensures AttachmentsOf(parts) == []
  {
    hide AttachmentIn;
    if parts != [] {
      assert parts[0] in parts && forall p <- parts[1..] :: p in parts;
      NoneIn(parts[1..]);
    }
  }

  lemma TextPart(text: string, body: string)
    ensures var p: Part := (Dict(BodySection(text).lines), body); IsText(p) && AttachmentIn(p) == []
  {
    hide Dict, RStripBy;
    BodyPartRead(text);
  }

  lemma TwoSections(l: Letter)
    requires l.attachments != []
    ensures |Sections(l)| >= 2 && Sections(l)[0] == BodySection(BodyText(l)) && Sections(l)[0] in Sections(l)
  {
    hide BodyText, BodySection, UrlSection, InlineSection;
    SomewhereListed(l.attachments);
  }

  lemma {:induction false} SomewhereListed(atts: seq<Outgoing>)
    ensures |WithUrl(atts)| + |WithoutUrl(atts)| == |atts|
  {
    if atts != [] {
      SomewhereListed(atts[1..]);
    }
  }

  // A mail with attachments comes back - all header values, the body with its list of links up to
  // trailing CR, LF and spaces, the attachments by URL and then the inline ones, each in order - exactly
  // when every header value is one trimmed line and none names another boundary than a beginning of the
  // mail's own. Where only the latter fails, all its attachments are lost.
  lemma AttachmentsRoundTrip(l: Letter, s: Stamp)
    requires l.attachments != [] && Packable(l, s) && Built(l, s).Ok?
    ensures AllComesBack(l, s, Parse(Built(l, s).value)) <==> HasHeaderValues(l, s) && Chosen(l, s) <= s.boundary
    ensures HasHeaderValues(l, s) && !(Chosen(l, s) <= s.boundary) ==> Parse(Built(l, s).value).attachments == []
  {
    hide Parse, MailText, Packable, Chosen, RStripBy, BodyText, HeaderValue;
    if HasHeaderValues(l, s) {
      if Chosen(l, s) <= s.boundary {
        OwnBoundary(l, s);
      } else {
        ForeignBoundary(l, s);
      }
    }
    ReadFieldsAreValues(MailText(l, s));
  }

  // With the boundary the printer draws, the only hypotheses left are on what is sent.
  lemma DrawnRoundTrip(l: Letter, s: Stamp, hex: string)
    requires l.attachments != [] && Enclosable(l, s) && Built(l, s).Ok? && s.boundary == "nb-" + hex && IsDrawn(hex)
    ensures AllComesBack(l, s, Parse(Built(l, s).value)) <==> HasHeaderValues(l, s) && Chosen(l, s) <= s.boundary
    ensures HasHeaderValues(l, s) && !(Chosen(l, s) <= s.boundary) ==> Parse(Built(l, s).value).attachments == []
  {
    hide Parse, Built, Enclosable, AllComesBack, Chosen, HasHeaderValues, IsDrawn, IsBoundary;
    DrawnBoundary(hex);
    AttachmentsRoundTrip(l, s);
  }

  lemma HeadersAround(l: Letter, s: Stamp)
    ensures |HeaderLines(l, s)| > 3 && HeaderLines(l, s)[3] == Header("Date", s.date)
    ensures Block(HeaderLines(l, s)) == ("From: " + l.from + "\nTo: " + l.to) + "\n"
                                         + ("Subject: " + l.subject + "\n" + Block(HeaderLines(l, s)[3..]))
  {
    hide MessageId;
    var lines := HeaderLines(l, s);
    var rest := Block(lines[3..]);
    var from, to, subject := Header("From", l.from), Header("To", l.to), Header("Subject", l.subject);
    assert lines[0] == from && lines[1] == to && lines[2] == subject && lines[3] == Header("Date", s.date);
    assert from.Printed() == "From: " + l.from && to.Printed() == "To: " + l.to;
    assert subject.Printed() == "Subject: " + l.subject;
    assert lines[1..][1..] == lines[2..] && lines[2..][1..] == lines[3..];
    assert Block(lines[2..]) == subject.Printed() + "\n" + rest;
    assert Block(lines[1..]) == to.Printed() + "\n" + Block(lines[2..]);
    assert Block(lines) == from.Printed() + "\n" + Block(lines[1..]);
  }

  lemma SubjectStartsAfresh(s: string)
    ensures StartsAfresh("Subject: " + s)
  {
    assert ("Subject: " + s)[0] == 'S' && !IsSpace('S');
  }

  lemma DateStartsAfresh(lines: seq<Line>, date: string)
    requires lines != [] && lines[0] == Header("Date", date)
    ensures StartsAfresh(Block(lines))
  {
    assert lines[0].Printed()[0] == 'D';
    assert Block(lines)[0] == 'D' && !IsSpace('D');
  }

  // Letters that do not begin the pattern are passed over.
  lemma {:induction false} BoundaryLater(t: string, s: string)
    requires forall c <- t :: FoldChar(c) != 'c'
    ensures SearchBoundary(t + s) == SearchBoundary(s)
  {
    hide FoldChar;
    if t == "" {
      assert t + s == s;
    } else {
      assert (t + s)[0] == t[0] && t[0] in t && (t + s)[1..] == t[1..] + s;
      BoundaryLater(t[1..], s);
    }
  }

  lemma SubjectPasses(v: string)
    ensures SearchBoundary("Subject: " + v) == SearchBoundary(v)
  {
    hide SearchBoundary;
    var late := "t: " + v;
    LettersBeforeC();
    BoundaryLater("Subje", "c" + late);
    OneLater(late);
    BoundaryLater("t: ", v);
    assert "Subject: " + v == "Subje" + ("c" + late);
  }

  lemma LettersBeforeC()
    ensures forall c <- "Subje" :: FoldChar(c) != 'c'
    ensures forall c <- "t: " :: FoldChar(c) != 'c'
  {
  }

  lemma OneLater(late: string)
    requires |late| > 0 && late[0] == 't'
    ensures SearchBoundary("c" + late) == SearchBoundary(late)
  {
    hide BoundaryAt, StartsFolded;
    var s := "c" + late;
    assert !StartsFolded(s, "content-type:") by { NotTheKey(s); }
    BoundaryNeedsKey(s);
    assert s[1..] == late;
  }

  lemma NotTheKey(s: string)
    requires |s| > 1 && s[1] == 't'
    ensures !StartsFolded(s, "content-type:")
  {
    assert FoldChar('t') == 't';
  }

  lemma BoundaryNamed()
    ensures SearchBoundary("Content-Type: multipart/mixed; boundary=x") == "x"
  {
    hide StartsFolded, Unquoted, LStripBy;
    var s2 := "boundary=" + "x";
    var s1 := "multipart/mixed;" + (" " + s2);
    var s0 := "Content-Type:" + (" " + s1);
    NamedShape();
    KeysMatch(" " + s1, " " + s2, "x");
    SkipBlank(s1);
    SkipBlank(s2);
    LetterX();
    assert BoundaryAt(s0) == "x" by {
      assert s0[13..] == " " + s1 && s1[16..] == " " + s2 && s2[9..] == "x";
    }
  }

  lemma NamedShape()
    ensures "Content-Type: multipart/mixed; boundary=x"
            == "Content-Type:" + (" " + ("multipart/mixed;" + (" " + ("boundary=" + "x"))))
  {
  }

  lemma LetterX()
    ensures Unquoted("x", EndsBoundary) == "x"
  {
    assert Until("", EndsBoundary) == "" && "x"[1..] == "";
  }

  // A Subject that names a boundary decides, unless the addresses before it name one.
  lemma MisleadingSubject(l: Letter, s: Stamp)
    requires SearchBoundary("From: " + l.from + "\nTo: " + l.to) == "" && SearchBoundary(l.subject) != ""
    ensures Chosen(l, s) == SearchBoundary(l.subject)
  {
    hide SearchBoundary, StartsAfresh, MessageId;
    var first := "From: " + l.from + "\nTo: " + l.to;
    var line := "Subject: " + l.subject;
    var rest := Block(HeaderLines(l, s)[3..]);
    HeadersAround(l, s);
    SubjectStartsAfresh(l.subject + ("\n" + rest));
    DateStartsAfresh(HeaderLines(l, s)[3..], s.date);
    assert line + "\n" + rest == "Subject: " + (l.subject + ("\n" + rest));
    FirstBoundary(first, line + "\n" + rest);
    FirstBoundary(line, rest);
    SubjectPasses(l.subject);
  }

  // With this Subject, plain addresses and a boundary as the program draws it, all attachments are lost.
  lemma SubjectLosesAttachments(l: Letter, s: Stamp, hex: string)
    requires l.subject == "Content-Type: multipart/mixed; boundary=x" && l.attachments != []
    requires SearchBoundary("From: " + l.from + "\nTo: " + l.to) == "" && s.boundary == "nb-" + hex && IsDrawn(hex)
    requires HasHeaderValues(l, s) && Enclosable(l, s) && Built(l, s).Ok?
    ensures Parse(Built(l, s).value).attachments == []
  {
    hide HasHeaderValues, Enclosable, Parse, Built, SearchBoundary, IsDrawn;
    BoundaryNamed();
    MisleadingSubject(l, s);
    assert "x"[0] != s.boundary[0];
    DrawnRoundTrip(l, s, hex);
  }

  lemma NotEmpty(b: string)
    requires IsBoundary(b)
    ensures b != ""
  {
  }

  // Well-formed inline data comes back unchanged, line breaks in it aside.
  lemma InlineDataIsKept(a: Outgoing, bytes: seq<Octets.byte>)
    requires Without(a.data, '\n') == Base64.Encoded(bytes)
    ensures ReceivedInline(a) == [Inline(SingleQuoted(a.Filename()), a.Mime(), Base64.Encoded(bytes))]
  {
    hide Base64.Decoded, Base64.Encoded, SingleQuoted, Base64.SixBits;
    NoSpaceWithout(a.data);
    Base64.EncodedIsPlain(bytes);
    PlainHasNoSpace(Base64.Encoded(bytes));
    Base64.DecodeEncode(bytes);
  }

  lemma {:induction false} PlainHasNoSpace(s: string)
    requires forall i :: 0 <= i < |s| ==> Base64.SixBits(s[i]) >= 0 || s[i] == '='
    ensures NoSpace(s) == s
  {
    if s != "" {
      PlainHasNoSpace(s[1..]);
      assert !IsSpace(s[0]);
    }
  }
}
