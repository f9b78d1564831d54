/** `Episode` and the reading of a feed (lightcast/core.py:30-70): each
    `<item>` of the document becomes an episode built from the first
    `title`, `enclosure`, `pubDate` and `itunes:duration` elements inside
    it. */
module Episodes {
  import opened Results
  import opened Strings
  import opened Decimal
  import opened Duration
  import opened PubDate
  import opened Xml

  /** One podcast episode (lightcast/core.py:33-45); the duration is in
      seconds. */
  datatype Episode = Episode(title: string, audioUrl: string, publicationDate: Timestamp, duration: int)

  predicate IsNewline(c: char) { c == '\n' }

  /** `s.strip("\n")`. */
  function StripNewlines(s: string): (t: string)
    ensures t != [] ==> t[0] != '\n' && t[|t| - 1] != '\n'
  {
    Strip(s, IsNewline)
  }

  /** `nodeValue`: the data of character data, nothing for an element. */
  function NodeValue(n: Node): Option<string> {
    match n
    case Text(data) => Some(data)
    case Comment(data) => Some(data)
    case Element(_, _, _) => None
  }

  /** `item.getElementsByTagName(tag)[0].firstChild.nodeValue`: an
      IndexError when no such element exists, an AttributeError when the
      first one is empty (`firstChild` is None) or starts with an element
      (its `nodeValue` is None, which has no `strip`). */
  function FirstValue(item: Element, tag: string): (r: Result<string>)
    ensures r.Failure? ==> r.error == IndexError(tag) || r.error == AttributeError(tag)
    ensures r == Failure(IndexError(tag)) <==> ElementsByTagName(item.children, tag) == []
    ensures r == Failure(AttributeError(tag)) <==> (&& ElementsByTagName(item.children, tag) != []
                                                    && (|| ElementsByTagName(item.children, tag)[0].children == []
                                                        || ElementsByTagName(item.children, tag)[0].children[0].Element?))
    ensures r.Success? ==> && ElementsByTagName(item.children, tag) != []
                           && ElementsByTagName(item.children, tag)[0].children != []
                           && NodeValue(ElementsByTagName(item.children, tag)[0].children[0]) == Some(r.value)
  {
    var found := ElementsByTagName(item.children, tag);
    if found == [] then Failure(IndexError(tag))
    else if found[0].children == [] then Failure(AttributeError(tag))
    else
      match NodeValue(found[0].children[0])
      case None => Failure(AttributeError(tag))
      case Some(v) => Success(v)
  }

  /** `item.getElementsByTagName(tag)[0].attributes[key].value`: an
      IndexError when no such element exists, a KeyError when the first one
      lacks the attribute. */
  function FirstAttribute(item: Element, tag: string, key: string): (r: Result<string>)
    ensures r.Failure? ==> r.error == IndexError(tag) || r.error == KeyError(key)
    ensures r == Failure(IndexError(tag)) <==> ElementsByTagName(item.children, tag) == []
    ensures r.Success? <==> ElementsByTagName(item.children, tag) != [] && key in ElementsByTagName(item.children, tag)[0].attributes
    ensures r.Success? ==> r.value == ElementsByTagName(item.children, tag)[0].attributes[key]
  {
    var found := ElementsByTagName(item.children, tag);
    if found == [] then Failure(IndexError(tag))
    else if key !in found[0].attributes then Failure(KeyError(key))
    else Success(found[0].attributes[key])
  }

  /** `Episode.from_xml(item)`: the fields are read in order (title,
      enclosure URL, publication date, duration), each stripped of
      surrounding newlines, and the first failure is the outcome. */
  function FromXml(item: Element): (r: Result<Episode>)
    ensures r.Success? ==> Valid(r.value.publicationDate)
    ensures r.Success? ==> r.value.title != [] ==> r.value.title[0] != '\n' && r.value.title[|r.value.title| - 1] != '\n'
    ensures r.Failure? ==> r.error.IndexError? || r.error.AttributeError? || r.error == KeyError("url") || r.error.ValueError?
    // A success read all four fields and is made of their stripped texts.
    ensures r.Success? ==> && FirstValue(item, "title").Success?
                           && FirstAttribute(item, "enclosure", "url").Success?
                           && FirstValue(item, "pubDate").Success?
                           && FirstValue(item, "itunes:duration").Success?
    ensures r.Success? ==> && r.value.title == StripNewlines(FirstValue(item, "title").value)
                           && r.value.audioUrl == StripNewlines(FirstAttribute(item, "enclosure", "url").value)
                           && ParsePubDate(StripNewlines(FirstValue(item, "pubDate").value)) == Success(r.value.publicationDate)
                           && ParseDuration(StripNewlines(FirstValue(item, "itunes:duration").value)) == Success(r.value.duration)
    // A failure is the error of the first step that fails, in reading order.
    ensures FirstValue(item, "title").Failure? ==> r == Failure(FirstValue(item, "title").error)
    ensures FirstValue(item, "title").Success? && FirstAttribute(item, "enclosure", "url").Failure?
            ==> r == Failure(FirstAttribute(item, "enclosure", "url").error)
    ensures && FirstValue(item, "title").Success? && FirstAttribute(item, "enclosure", "url").Success?
            && FirstValue(item, "pubDate").Failure?
            ==> r == Failure(FirstValue(item, "pubDate").error)
    ensures && FirstValue(item, "title").Success? && FirstAttribute(item, "enclosure", "url").Success?
            && FirstValue(item, "pubDate").Success? && ParsePubDate(StripNewlines(FirstValue(item, "pubDate").value)).Failure?
            ==> r == Failure(ParsePubDate(StripNewlines(FirstValue(item, "pubDate").value)).error)
    ensures && FirstValue(item, "title").Success? && FirstAttribute(item, "enclosure", "url").Success?
            && FirstValue(item, "pubDate").Success? && ParsePubDate(StripNewlines(FirstValue(item, "pubDate").value)).Success?
            && FirstValue(item, "itunes:duration").Failure?
            ==> r == Failure(FirstValue(item, "itunes:duration").error)
    ensures && FirstValue(item, "title").Success? && FirstAttribute(item, "enclosure", "url").Success?
            && FirstValue(item, "pubDate").Success? && ParsePubDate(StripNewlines(FirstValue(item, "pubDate").value)).Success?
            && FirstValue(item, "itunes:duration").Success?
            && ParseDuration(StripNewlines(FirstValue(item, "itunes:duration").value)).Failure?
            ==> r == Failure(ParseDuration(StripNewlines(FirstValue(item, "itunes:duration").value)).error)
  {
    var title :- FirstValue(item, "title");
    var url :- FirstAttribute(item, "enclosure", "url");
    var date :- FirstValue(item, "pubDate");
    var published :- ParsePubDate(StripNewlines(date));
    var duration :- FirstValue(item, "itunes:duration");
    var seconds :- ParseDuration(StripNewlines(duration));
    Success(Episode(StripNewlines(title), StripNewlines(url), published, seconds))
  }

  /** `get_episodes_from_feed_url` once the document is parsed: every
      `<item>` of the document, in document order, as an episode; the first
      item that fails fails the whole feed. */
  function FeedEpisodes(document: seq<Node>): (r: Result<seq<Episode>>)
    ensures IsComprehension(FromXml, ElementsByTagName(document, "item"), r)
    ensures r.Success? ==> |r.value| == |ElementsByTagName(document, "item")|
    ensures r.Failure? ==> exists k :: 0 <= k < |ElementsByTagName(document, "item")|
                                       && FromXml(ElementsByTagName(document, "item")[k]) == Failure(r.error)
  {
    MapAllIsComprehension(FromXml, ElementsByTagName(document, "item"));
    MapAll(FromXml, ElementsByTagName(document, "item"))
  }

  /** `Episode.download(file_path)`: the target is the given path unless it
      is missing or empty, else the title with `.mp3` appended. */
  function DownloadPath(episode: Episode, filePath: Option<string>): (path: string)
    ensures path != []
    ensures filePath.Some? && filePath.value != [] ==> path == filePath.value
    ensures filePath.None? || filePath.value == [] ==> path == episode.title + ".mp3"
  {
    if filePath.Some? && filePath.value != [] then filePath.value else episode.title + ".mp3"
  }

  // ---------------------------------------------------------------------
  // Items as a feed writes them, and what reading them gives.

  /** `<tag>text</tag>`; empty content leaves the element without children,
      as a parser builds it. */
  function Field(tag: string, text: string): Element {
    Element(tag, map[], if text == [] then [] else [Text(text)])
  }

  /** An `<item>` with the four fields the reader looks for. */
  function Item(title: string, url: string, date: string, duration: string): Element {
    Element("item", map[], [Field("title", title), Element("enclosure", map["url" := url], []),
                            Field("pubDate", date), Field("itunes:duration", duration)])
  }

  /** An episode a feed can carry and read back unchanged. */
  predicate Writable(e: Episode) {
    && e.title != [] && e.title[0] != '\n' && e.title[|e.title| - 1] != '\n'
    && (e.audioUrl != [] ==> e.audioUrl[0] != '\n' && e.audioUrl[|e.audioUrl| - 1] != '\n')
    && Canonical(e.publicationDate)
    && |ShowNat(if e.duration < 0 then -e.duration else e.duration)| <= MaxStrDigits
  }

  function ItemFor(e: Episode): Element
    requires Writable(e)
  {
    Item(e.title, e.audioUrl, FormatPubDate(e.publicationDate), ShowInt(e.duration))
  }

  /** Each field of an item is found as its own element. */
  lemma {:induction false} ItemFields(title: string, url: string, date: string, duration: string)
    ensures FirstValue(Item(title, url, date, duration), "title") == (if title == [] then Failure(AttributeError("title")) else Success(title))
    ensures FirstAttribute(Item(title, url, date, duration), "enclosure", "url") == Success(url)
    ensures FirstValue(Item(title, url, date, duration), "pubDate") == (if date == [] then Failure(AttributeError("pubDate")) else Success(date))
    ensures FirstValue(Item(title, url, date, duration), "itunes:duration") == (if duration == [] then Failure(AttributeError("itunes:duration")) else Success(duration))
  {
    var item := Item(title, url, date, duration);
    ItemSearch(title, url, date, duration, 0, "title");
    FieldValue(item, "title", title);
    ItemSearch(title, url, date, duration, 1, "enclosure");
    EnclosureValue(item, url);
    ItemSearch(title, url, date, duration, 2, "pubDate");
    FieldValue(item, "pubDate", date);
    ItemSearch(title, url, date, duration, 3, "itunes:duration");
    FieldValue(item, "itunes:duration", duration);
  }

  /** A lone field element found for a tag gives its text, if it has any. */
  lemma {:induction false} FieldValue(item: Element, tag: string, text: string)
    requires ElementsByTagName(item.children, tag) == [Field(tag, text)]
    ensures FirstValue(item, tag) == (if text == [] then Failure(AttributeError(tag)) else Success(text))
  {
  }

  lemma {:induction false} EnclosureValue(item: Element, url: string)
    requires ElementsByTagName(item.children, "enclosure") == [Element("enclosure", map["url" := url], [])]
    ensures FirstAttribute(item, "enclosure", "url") == Success(url)
  {
  }

  /** Searching an item for one of its four tags finds that field alone. */
  lemma {:induction false} ItemSearch(title: string, url: string, date: string, duration: string, k: nat, name: string)
    requires (k, name) in {(0, "title"), (1, "enclosure"), (2, "pubDate"), (3, "itunes:duration")}
    ensures ElementsByTagName(Item(title, url, date, duration).children, name)
         == [[Field("title", title), Element("enclosure", map["url" := url], []), Field("pubDate", date), Field("itunes:duration", duration)][k]]
  {
    var children := Item(title, url, date, duration).children;
    assert Flat(children);
    FlatSearch(children, k, name);
  }

  /** What reading an item gives, in terms of its four texts: the stripped
      title and URL, and the parsed stripped date and duration. */
  lemma {:induction false} FromItem(title: string, url: string, date: string, duration: string)
    requires title != [] && date != [] && duration != []
    ensures FromXml(Item(title, url, date, duration)).Success?
        <==> ParsePubDate(StripNewlines(date)).Success? && ParseDuration(StripNewlines(duration)).Success?
    ensures FromXml(Item(title, url, date, duration)).Success? ==>
              FromXml(Item(title, url, date, duration)).value
              == Episode(StripNewlines(title), StripNewlines(url),
                         ParsePubDate(StripNewlines(date)).value, ParseDuration(StripNewlines(duration)).value)
  {
    ItemFields(title, url, date, duration);
  }

  /** An episode written as an item reads back as itself. */
  lemma {:induction false} ReadWritten(e: Episode)
    requires Writable(e)
    ensures FromXml(ItemFor(e)).Success?
    ensures FromXml(ItemFor(e)).value == e
  {
    NoNewlineEnds(e.title);
    NoNewlineEnds(e.audioUrl);
    DateReadBack(e.publicationDate);
    DurationReadBack(e.duration);
    FromItem(e.title, e.audioUrl, FormatPubDate(e.publicationDate), ShowInt(e.duration));
  }

  /** The date an item carries reads back as the timestamp written. */
  lemma {:induction false} DateReadBack(t: Timestamp)
    requires Canonical(t)
    ensures FormatPubDate(t) != []
    ensures ParsePubDate(StripNewlines(FormatPubDate(t))).Success?
    ensures ParsePubDate(StripNewlines(FormatPubDate(t))).value == t
  {
    FormatPubDateEnds(t);
    NoNewlineEnds(FormatPubDate(t));
    ParseFormat(t);
  }

  /** The duration an item carries reads back as the seconds written. */
  lemma {:induction false} DurationReadBack(n: int)
    requires |ShowNat(if n < 0 then -n else n)| <= MaxStrDigits
    ensures ShowInt(n) != []
    ensures ParseDuration(StripNewlines(ShowInt(n))) == Success(n)
  {
    ShowIntEnds(n);
    NoNewlineEnds(ShowInt(n));
    SecondsRoundTrip(n);
  }

  /** Newlines around any of the texts make no difference. */
  lemma {:induction false} NewlinesIgnored(title: string, url: string, date: string, duration: string, pre: string, post: string)
    requires title != [] && date != [] && duration != []
    requires All(pre, IsNewline) && All(post, IsNewline)
    ensures FromXml(Item(pre + title + post, pre + url + post, pre + date + post, pre + duration + post))
         == FromXml(Item(title, url, date, duration))
  {
    StripAbsorbs(pre, title, post, IsNewline);
    StripAbsorbs(pre, url, post, IsNewline);
    StripAbsorbs(pre, date, post, IsNewline);
    StripAbsorbs(pre, duration, post, IsNewline);
    ItemFields(pre + title + post, pre + url + post, pre + date + post, pre + duration + post);
    ItemFields(title, url, date, duration);
    SameFields(Item(pre + title + post, pre + url + post, pre + date + post, pre + duration + post),
               Item(title, url, date, duration));
  }

  /** Items whose four fields are present and agree once stripped read
      alike. */
  lemma {:induction false} SameFields(a: Element, b: Element)
    requires FirstValue(a, "title").Success? && FirstValue(b, "title").Success?
    requires StripNewlines(FirstValue(a, "title").value) == StripNewlines(FirstValue(b, "title").value)
    requires FirstAttribute(a, "enclosure", "url").Success? && FirstAttribute(b, "enclosure", "url").Success?
    requires StripNewlines(FirstAttribute(a, "enclosure", "url").value) == StripNewlines(FirstAttribute(b, "enclosure", "url").value)
    requires FirstValue(a, "pubDate").Success? && FirstValue(b, "pubDate").Success?
    requires StripNewlines(FirstValue(a, "pubDate").value) == StripNewlines(FirstValue(b, "pubDate").value)
    requires FirstValue(a, "itunes:duration").Success? && FirstValue(b, "itunes:duration").Success?
    requires StripNewlines(FirstValue(a, "itunes:duration").value) == StripNewlines(FirstValue(b, "itunes:duration").value)
    ensures FromXml(a) == FromXml(b)
  {
    ReadFields(a);
    ReadFields(b);
  }

  /** The episode four stripped texts make, once all four are read. */
  function Assemble(title: string, url: string, date: string, duration: string): Result<Episode> {
    var published :- ParsePubDate(date);
    var seconds :- ParseDuration(duration);
    Success(Episode(title, url, published, seconds))
  }

  /** When all four fields can be read, only their stripped texts matter. */
  lemma {:induction false} ReadFields(item: Element)
    requires FirstValue(item, "title").Success? && FirstAttribute(item, "enclosure", "url").Success?
    requires FirstValue(item, "pubDate").Success? && FirstValue(item, "itunes:duration").Success?
    ensures FromXml(item) == Assemble(StripNewlines(FirstValue(item, "title").value),
                                      StripNewlines(FirstAttribute(item, "enclosure", "url").value),
                                      StripNewlines(FirstValue(item, "pubDate").value),
                                      StripNewlines(FirstValue(item, "itunes:duration").value))
  {
    var date := StripNewlines(FirstValue(item, "pubDate").value);
    var duration := StripNewlines(FirstValue(item, "itunes:duration").value);
    var published, seconds := ParsePubDate(date), ParseDuration(duration);
    if published.Success? && seconds.Success? {
      assert FromXml(item) == Success(Episode(StripNewlines(FirstValue(item, "title").value),
                                              StripNewlines(FirstAttribute(item, "enclosure", "url").value),
                                              published.value, seconds.value));
    }
  }

  /** An item without an enclosure fails on it, once its title is read,
      and never yields a partial episode. */
  lemma {:induction false} MissingEnclosure(title: string, rest: seq<Node>)
    requires title != [] && ElementsByTagName(rest, "enclosure") == []
    ensures FromXml(Element("item", map[], [Field("title", title)] + rest)) == Failure(IndexError("enclosure"))
  {
    var item := Element("item", map[], [Field("title", title)] + rest);
    assert FirstValue(item, "title").Success? by { TitleFirst(title, rest); }
    assert ElementsByTagName(item.children, "enclosure") == [] by { TitleHoldsNoTag(title, rest, "enclosure"); }
    NoEnclosure(item);
  }

  /** A leading non-empty `<title>` is the title read, whatever follows. */
  lemma {:induction false} TitleFirst(title: string, rest: seq<Node>)
    requires title != []
    ensures FirstValue(Element("item", map[], [Field("title", title)] + rest), "title") == Success(title)
  {
    FirstChildFirst(Field("title", title), rest, "title");
  }

  /** Searching past a `<title>` field for another tag searches what follows. */
  lemma {:induction false} TitleHoldsNoTag(title: string, rest: seq<Node>, name: string)
    requires name != "title" && name != "*"
    ensures ElementsByTagName([Field("title", title)] + rest, name) == ElementsByTagName(rest, name)
  {
    SearchConcat([Field("title", title)], rest, name);
    NoneFound([Field("title", title)], name);
  }

  /** Once the title is read, an item with no enclosure fails on it. */
  lemma {:induction false} NoEnclosure(item: Element)
    requires FirstValue(item, "title").Success? && ElementsByTagName(item.children, "enclosure") == []
    ensures FromXml(item) == Failure(IndexError("enclosure"))
  {
  }

  /** An enclosure without a URL is a KeyError once the title is read. */
  lemma {:induction false} EnclosureWithoutUrl(title: string, rest: seq<Node>)
    requires title != []
    ensures FromXml(Element("item", map[], [Field("title", title)] + ([Element("enclosure", map[], [])] + rest)))
         == Failure(KeyError("url"))
  {
    var enclosure := Element("enclosure", map[], []);
    var item := Element("item", map[], [Field("title", title)] + ([enclosure] + rest));
    assert FirstValue(item, "title").Success? by { TitleFirst(title, [enclosure] + rest); }
    assert ElementsByTagName(item.children, "enclosure") == ElementsByTagName([enclosure] + rest, "enclosure") by {
      TitleHoldsNoTag(title, [enclosure] + rest, "enclosure");
    }
    assert ElementsByTagName([enclosure] + rest, "enclosure")[0] == enclosure by {
      FirstChildFirst(enclosure, rest, "enclosure");
    }
    UrlMissing(item);
  }

  /** Once the title is read, a first enclosure without a URL is a KeyError. */
  lemma {:induction false} UrlMissing(item: Element)
    requires FirstValue(item, "title").Success?
    requires ElementsByTagName(item.children, "enclosure") != []
    requires "url" !in ElementsByTagName(item.children, "enclosure")[0].attributes
    ensures FromXml(item) == Failure(KeyError("url"))
  {
  }

  /** An item with a title and an enclosure URL but no `<pubDate>` fails
      on the date, whatever else it holds. */
  lemma {:induction false} MissingDate(item: Element)
    requires FirstValue(item, "title").Success? && FirstAttribute(item, "enclosure", "url").Success?
    requires ElementsByTagName(item.children, "pubDate") == []
    ensures FromXml(item) == Failure(IndexError("pubDate"))
  {
    assert FirstValue(item, "pubDate") == Failure(IndexError("pubDate"));
  }

  /** An item whose first three fields read, but with no
      `<itunes:duration>`, fails on the duration. */
  lemma {:induction false} MissingDuration(item: Element)
    requires FirstValue(item, "title").Success? && FirstAttribute(item, "enclosure", "url").Success?
    requires FirstValue(item, "pubDate").Success? && ParsePubDate(StripNewlines(FirstValue(item, "pubDate").value)).Success?
    requires ElementsByTagName(item.children, "itunes:duration") == []
    ensures FromXml(item) == Failure(IndexError("itunes:duration"))
  {
    assert FirstValue(item, "itunes:duration") == Failure(IndexError("itunes:duration"));
  }

  /** An item that lacks any of the four tags never decodes. */
  lemma {:induction false} MissingTagFails(item: Element, tag: string)
    requires tag in ["title", "enclosure", "pubDate", "itunes:duration"]
    requires ElementsByTagName(item.children, tag) == []
    ensures FromXml(item).Failure?
  {
    if tag == "title" {
      assert FirstValue(item, "title").Failure?;
    } else if tag == "enclosure" {
      assert FirstAttribute(item, "enclosure", "url").Failure?;
    } else if tag == "pubDate" {
      assert FirstValue(item, "pubDate").Failure?;
    } else {
      assert FirstValue(item, "itunes:duration").Failure?;
    }
  }

  /** An empty `<title/>` is an AttributeError, whatever follows. */
  lemma {:induction false} EmptyTitle(url: string, date: string, duration: string)
    ensures FromXml(Item("", url, date, duration)) == Failure(AttributeError("title"))
  {
    ItemFields("", url, date, duration);
  }

  /** Elements whose content is character data only. */
  predicate Flat(nodes: seq<Node>) {
    forall k :: 0 <= k < |nodes| ==> nodes[k].Element? && NoElements(nodes[k].children)
  }

  /** In a flat list of elements with distinct tags, searching for a tag
      finds the one element that has it. */
  lemma {:induction false} FlatSearch(nodes: seq<Node>, k: nat, name: string)
    requires Flat(nodes) && k < |nodes| && name != "*"
    requires nodes[k].tagName == name
    requires forall j :: 0 <= j < |nodes| && j != k ==> nodes[j].tagName != name
    ensures ElementsByTagName(nodes, name) == [nodes[k]]
    decreases nodes
  {
    NoElementsNoneFound(nodes[0].children, name);
    if k == 0 {
      NoneFound(nodes[1..], name);
    } else {
      FlatSearch(nodes[1..], k - 1, name);
    }
  }

  lemma {:induction false} NoNewlineEnds(s: string)
    requires s != [] ==> s[0] != '\n' && s[|s| - 1] != '\n'
    ensures StripNewlines(s) == s
  {
    assert [] + s + [] == s;
    StripSurrounded([], s, [], IsNewline);
  }

  lemma {:induction false} ShowIntEnds(n: int)
    ensures ShowInt(n) != [] && ShowInt(n)[0] != '\n' && ShowInt(n)[|ShowInt(n)| - 1] != '\n'
  {
    var d := ShowNat(if n < 0 then -n else n);
    assert IsDigit(d[0]) && IsDigit(d[|d| - 1]);
  }

  // ---------------------------------------------------------------------
  // Whole feeds.

  function ItemsFor(episodes: seq<Episode>): (items: seq<Element>)
    requires forall k :: 0 <= k < |episodes| ==> Writable(episodes[k])
    ensures |items| == |episodes|
    ensures forall k :: 0 <= k < |episodes| ==> items[k] == ItemFor(episodes[k])
  {
    seq(|episodes|, k requires 0 <= k < |episodes| => ItemFor(episodes[k]))
  }

  lemma {:induction false} ItemsForCons(episodes: seq<Episode>)
    requires episodes != [] && forall k :: 0 <= k < |episodes| ==> Writable(episodes[k])
    ensures ItemsFor(episodes) == [ItemFor(episodes[0])] + ItemsFor(episodes[1..])
  {
    var rest := episodes[1..];
    var whole, parts := ItemsFor(episodes), [ItemFor(episodes[0])] + ItemsFor(rest);
    forall k | 0 <= k < |whole| ensures whole[k] == parts[k] {
      assert whole[k] == ItemFor(episodes[k]);
      if k > 0 {
        assert parts[k] == ItemsFor(rest)[k - 1] == ItemFor(rest[k - 1]);
        assert rest[k - 1] == episodes[k];
      }
    }
    assert whole == parts;
  }

  /** An RSS document whose channel carries the given episodes. */
  function FeedFor(channelTitle: string, episodes: seq<Episode>): seq<Node>
    requires forall k :: 0 <= k < |episodes| ==> Writable(episodes[k])
  {
    [Element("rss", map["version" := "2.0"], [Element("channel", map[], [Field("title", channelTitle)] + ItemsFor(episodes))])]
  }

  /** A feed of written episodes reads back as those episodes, in order;
      the channel's own title is not taken for an item's. */
  lemma {:induction false} ReadFeed(channelTitle: string, episodes: seq<Episode>)
    requires forall k :: 0 <= k < |episodes| ==> Writable(episodes[k])
    ensures FeedEpisodes(FeedFor(channelTitle, episodes)) == Success(episodes)
  {
    FeedItems(channelTitle, episodes);
    ReadItems(episodes);
  }

  /** The items of the feed document are the channel's items. */
  lemma {:induction false} FeedItems(channelTitle: string, episodes: seq<Episode>)
    requires forall k :: 0 <= k < |episodes| ==> Writable(episodes[k])
    ensures ElementsByTagName(FeedFor(channelTitle, episodes), "item") == ItemsFor(episodes)
  {
    ItemsFound(episodes);
    ChannelItems(channelTitle, ItemsFor(episodes));
  }

  /** The channel around the items, and its title, hold no item. */
  lemma {:induction false} ChannelItems(channelTitle: string, items: seq<Node>)
    ensures ElementsByTagName([Element("rss", map["version" := "2.0"], [Element("channel", map[], [Field("title", channelTitle)] + items)])], "item")
         == ElementsByTagName(items, "item")
  {
    var inner := [Field("title", channelTitle)] + items;
    var channel := Element("channel", map[], inner);
    SearchConcat([Field("title", channelTitle)], items, "item");
    NoneFound([Field("title", channelTitle)], "item");
    UnmatchedElement(Element("rss", map["version" := "2.0"], [channel]), "item");
    UnmatchedElement(channel, "item");
  }

  lemma {:induction false} ReadItems(episodes: seq<Episode>)
    requires forall k :: 0 <= k < |episodes| ==> Writable(episodes[k])
    ensures MapAll(FromXml, ItemsFor(episodes)) == Success(episodes)
  {
    var items := ItemsFor(episodes);
    EachItemRead(episodes, items);
    MapAllTo(FromXml, items, episodes);
  }

  lemma {:induction false} EachItemRead(episodes: seq<Episode>, items: seq<Element>)
    requires forall k :: 0 <= k < |episodes| ==> Writable(episodes[k])
    requires |items| == |episodes| && forall k :: 0 <= k < |episodes| ==> items[k] == ItemFor(episodes[k])
    ensures forall k :: 0 <= k < |items| ==> FromXml(items[k]).Success? && FromXml(items[k]).value == episodes[k]
  {
    forall k | 0 <= k < |items| ensures FromXml(items[k]).Success? && FromXml(items[k]).value == episodes[k] {
      ReadWritten(episodes[k]);
    }
  }

  /** The items of a feed are found, in order, and nothing inside them is
      taken for an item. */
  lemma {:induction false} ItemsFound(episodes: seq<Episode>)
    requires forall k :: 0 <= k < |episodes| ==> Writable(episodes[k])
    ensures ElementsByTagName(ItemsFor(episodes), "item") == ItemsFor(episodes)
    decreases episodes
  {
    if episodes != [] {
      var item := ItemFor(episodes[0]);
      ItemHoldsNoItem(episodes[0]);
      ItemsFound(episodes[1..]);
      SearchConcat([item], ItemsFor(episodes[1..]), "item");
      ItemsForCons(episodes);
    }
  }

  /** A written item is found as itself, and nothing inside it is. */
  lemma {:induction false} ItemHoldsNoItem(e: Episode)
    requires Writable(e)
    ensures ElementsByTagName([ItemFor(e)], "item") == [ItemFor(e)]
  {
    var item := ItemFor(e);
    assert Flat(item.children);
    NoneFound(item.children, "item");
    assert [item][1..] == [];
  }
}
