/** The text-and-link collector that the crawler runs over a page
    (class HtmlParser, crawler.py lines 17-44). The tag tokenizer of the
    standard library is not modelled: a page arrives as the sequence of
    callbacks it would make, and resolving an href against the page URL
    (urljoin followed by urldefrag) is a function handed in. */
module Html {
  import opened Wrappers
  import opened Text

  type Url = string

  /** One attribute of a start tag; a bare attribute (`<a href>`) has no value. */
  datatype Attr = Attr(name: string, value: Option<string>)

  /** The parser callbacks the collector reacts to; every other callback
      (end tags, comments, ...) is `Other` and does nothing. */
  datatype Event = Data(data: string) | StartTag(tag: string, attrs: seq<Attr>) | Other

  predicate IsHref(name: string)
  {
    Lower(name) == "href"
  }

  predicate NoHrefBefore(attrs: seq<Attr>, i: int)
    requires 0 <= i <= |attrs|
  {
    forall j :: 0 <= j < i ==> !IsHref(attrs[j].name)
  }

  /** The value of the first `href` attribute, by the source's rule: the search
      stops at the first attribute named `href`, whatever its value. */
  function FirstHref(attrs: seq<Attr>): (r: Option<string>)
    ensures (forall i :: 0 <= i < |attrs| ==> !IsHref(attrs[i].name)) ==> r == None
    ensures forall i :: 0 <= i < |attrs| && IsHref(attrs[i].name) && NoHrefBefore(attrs, i) ==>
      r == attrs[i].value
    decreases |attrs|
  {
    if attrs == [] then None
    else if IsHref(attrs[0].name) then attrs[0].value
    else
      var r := FirstHref(attrs[1..]);
      assert forall i :: 1 <= i < |attrs| ==> attrs[i] == attrs[1..][i - 1];
      r
  }

  /** What `handle_data` keeps of a data chunk: its stripped form, unless blank. */
  function ChunkOf(data: string): seq<string>
  {
    var s := Strip(data);
    if s != "" then [s] else []
  }

  /** What `handle_starttag` adds to the links: the resolved first href of an
      `a` tag when that href is a non-empty string. */
  function LinkOf(url: Url, resolve: (Url, string) -> Url, tag: string, attrs: seq<Attr>): seq<Url>
  {
    if Lower(tag) == "a" then
      match FirstHref(attrs)
      case Some(h) => if h != "" then [resolve(url, h)] else []
      case None => []
    else []
  }

  function EventChunks(e: Event): seq<string>
  {
    match e
    case Data(d) => ChunkOf(d)
    case _ => []
  }

  function EventLinks(url: Url, resolve: (Url, string) -> Url, e: Event): seq<Url>
  {
    match e
    case StartTag(t, a) => LinkOf(url, resolve, t, a)
    case _ => []
  }

  /** The text chunks collected from a stream of callbacks. */
  function Chunks(events: seq<Event>): seq<string>
    decreases |events|
  {
    if events == [] then []
    else Chunks(events[..|events| - 1]) + EventChunks(events[|events| - 1])
  }

  /** The links collected from a stream of callbacks, duplicates included. */
  function Hrefs(url: Url, resolve: (Url, string) -> Url, events: seq<Event>): seq<Url>
    decreases |events|
  {
    if events == [] then []
    else Hrefs(url, resolve, events[..|events| - 1]) + EventLinks(url, resolve, events[|events| - 1])
  }

  predicate NoDuplicates<T(==)>(s: seq<T>)
  {
    forall i, j :: 0 <= i < j < |s| ==> s[i] != s[j]
  }

  class HtmlParser {
    const url: Url
    const resolve: (Url, string) -> Url
    var textChunks: seq<string>
    var links: seq<Url>

    constructor (url: Url, resolve: (Url, string) -> Url)
      ensures this.url == url && this.resolve == resolve
      ensures textChunks == [] && links == []
    {
      this.url := url;
      this.resolve := resolve;
      textChunks := [];
      links := [];
    }

    method HandleData(data: string)
      modifies this
      ensures textChunks == old(textChunks) + ChunkOf(data)
      ensures links == old(links)
    {
      var stripped := Strip(data);
      if data != "" && stripped != "" {
        textChunks := textChunks + [stripped];
      }
    }

    method HandleStartTag(tag: string, attrs: seq<Attr>)
      modifies this
      ensures links == old(links) + LinkOf(url, resolve, tag, attrs)
      ensures textChunks == old(textChunks)
    {
      if Lower(tag) == "a" {
        var href: Option<string> := None;
        var i := 0;
        while i < |attrs|
          invariant 0 <= i <= |attrs|
          invariant href == None
          invariant forall j :: 0 <= j < i ==> !IsHref(attrs[j].name)
        {
          if Lower(attrs[i].name) == "href" {
            href := attrs[i].value;
            break;
          }
          i := i + 1;
        }
        if href.Some? && href.value != "" {
          links := links + [resolve(url, href.value)];
        }
      }
    }

    /** `' '.join(self.text_chunks)`. */
    function GetText(): string
      reads this
    {
      JoinWith(" ", textChunks)
    }

    /** `list(set(self.links))`: the links without repetition, in an order the
        source leaves unspecified. */
    method GetLinks() returns (r: seq<Url>)
      ensures NoDuplicates(r)
      ensures forall u :: u in r <==> u in links
    {
      var remaining := set u | u in links;
      r := [];
      while remaining != {}
        invariant NoDuplicates(r)
        invariant forall u :: u in r ==> u in links && u !in remaining
        invariant forall u :: u in links ==> u in r || u in remaining
        invariant forall u :: u in remaining ==> u in links
        decreases |remaining|
      {
        var u :| u in remaining;
        r := r + [u];
        remaining := remaining - {u};
      }
    }
  }

  /** `extract_from_html` after decoding (crawler.py lines 114-116): feed the
      callbacks to a fresh collector and read back its text and links. */
  method ExtractFromHtml(url: Url, resolve: (Url, string) -> Url, events: seq<Event>)
    returns (text: string, links: seq<Url>)
    ensures text == JoinWith(" ", Chunks(events))
    ensures NoDuplicates(links)
    ensures forall u :: u in links <==> u in Hrefs(url, resolve, events)
  {
    var parser := new HtmlParser(url, resolve);
    var i := 0;
    while i < |events|
      invariant 0 <= i <= |events|
      invariant parser.url == url && parser.resolve == resolve
      invariant parser.textChunks == Chunks(events[..i])
      invariant parser.links == Hrefs(url, resolve, events[..i])
    {
      assert events[..i + 1][..i] == events[..i];
      match events[i] {
        case Data(d) => parser.HandleData(d);
        case StartTag(t, a) => parser.HandleStartTag(t, a);
        case Other =>
      }
      i := i + 1;
    }
    assert events[..|events|] == events;
    text := parser.GetText();
    links := parser.GetLinks();
  }

  /** Every chunk of the page text is non-blank and already stripped. */
  lemma {:induction false} ChunksAreStripped(events: seq<Event>)
    ensures forall c :: c in Chunks(events) ==> c != "" && Strip(c) == c
    decreases |events|
  {
    if events != [] {
      ChunksAreStripped(events[..|events| - 1]);
      var e := events[|events| - 1];
      if e.Data? {
        StripProperties(e.data);
      }
    }
  }

  /** The page's tokens are the tokens of its chunks, one after another. */
  lemma PageTokens(events: seq<Event>)
    ensures Tokens(JoinWith(" ", Chunks(events))) == TokensOfAll(Chunks(events))
  {
    TokensOfJoin(' ', Chunks(events));
  }

  /** Only the first `href` attribute counts: an empty one hides a later,
      non-empty one. */
  lemma FirstEmptyHrefHidesLater(url: Url, resolve: (Url, string) -> Url)
    ensures LinkOf(url, resolve, "a", [Attr("href", Some("")), Attr("href", Some("x.html"))]) == []
  {
  }
}
