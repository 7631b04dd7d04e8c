/** Turning the links of the notice board page into announcement records
    (`fetch_announcements` in fetch_announcements.py). The page download and
    the HTML parser are outside the model: the page arrives as the sequence of
    `(text, href)` pairs of its anchors, text already stripped, or as `None`
    when the request failed. */
module Extraction {
  import opened Common

  /** Site origin that relative links are resolved against. */
  const Origin: string := "https://gses.snu.ac.kr"
  /** Only this many links, from the top of the page, are examined. */
  const LinkLimit: nat := 10
  /** A title is kept only when it is strictly longer than this. */
  const MinTitleLength: nat := 5

  /** One anchor of the page: its stripped visible text and its href. */
  datatype Link = Link(text: string, href: string)

  /** One announcement: title, absolute url, and the dedup key (the MD5 hex
      digest of title followed by url in the source). */
  datatype Announcement = Announcement(title: string, url: string, key: string)

  /** Resolve an href against the site origin: absolute (`http…`) and empty
      hrefs stay as they are, a root-relative path gets the origin in front,
      any other relative path gets the origin and a slash in front. */
  function Normalize(href: string): (url: string)
    ensures href == [] ==> url == []
    ensures StartsWith(href, "http") ==> url == href
    ensures href != [] && !StartsWith(href, "http") ==>
              StartsWith(url, Origin + "/") &&
              |url| == |Origin| + |href| + (if href[0] == '/' then 0 else 1)
    ensures EndsWith(url, href)
  {
    if href == [] || StartsWith(href, "http") then href
    else if href[0] == '/' then
      assert (Origin + href)[..|Origin| + 1] == Origin + "/";
      Origin + href
    else
      assert (Origin + "/" + href)[..|Origin| + 1] == Origin + "/";
      Origin + "/" + href
  }

  /** Every non-empty href normalises to an `http` URL, and normalising a
      second time changes nothing. */
  lemma NormalizeIdempotent(href: string)
    ensures href != [] ==> StartsWith(Normalize(href), "http")
    ensures Normalize(Normalize(href)) == Normalize(href)
  {
    if href != [] && !StartsWith(href, "http") {
      var url := Normalize(href);
      assert url[..|Origin| + 1] == Origin + "/";
      assert url[..4] == Origin[..4] == "http";
    }
  }

  /** The title filter of the source: non-empty and longer than five
      characters (the emptiness test is implied by the length test). */
  predicate Meaningful(title: string) {
    |title| > MinTitleLength
  }

  predicate Kept(link: Link) {
    Meaningful(link.text)
  }

  /** The record built from a link: the key is the digest of the title
      followed by the normalised url. */
  function Record(link: Link, digest: string -> string): Announcement {
    var url := Normalize(link.href);
    Announcement(link.text, url, digest(link.text + url))
  }

  /** The key depends on the resolved url, not on how the href was written:
      a relative path, the same path with a leading slash, and the absolute
      url on the site all give one and the same record. */
  lemma RecordSpellings(text: string, path: string, digest: string -> string)
    requires path != [] && path[0] != '/' && !StartsWith(path, "http")
    ensures Record(Link(text, path), digest) == Record(Link(text, "/" + path), digest)
    ensures Record(Link(text, path), digest) == Record(Link(text, Origin + "/" + path), digest)
  {
    var absolute := Origin + "/" + path;
    assert absolute[..4] == "http";
    assert ("/" + path)[0] == '/' && ("/" + path)[..1] != "h";
    assert Normalize("/" + path) == Origin + ("/" + path);
    assert Origin + ("/" + path) == absolute;
    assert Normalize(path) == absolute;
  }

  /** The first `LinkLimit` links (Python's `links[:10]`). */
  function Window(links: seq<Link>): (w: seq<Link>)
    ensures |w| <= LinkLimit
    ensures |w| == if |links| <= LinkLimit then |links| else LinkLimit
    ensures w == links[..|w|]
  {
    if |links| <= LinkLimit then links else links[..LinkLimit]
  }

  /** Records of the kept links, in link order. */
  function Extracted(links: seq<Link>, digest: string -> string): (anns: seq<Announcement>)
    ensures |anns| <= |links|
  {
    if links == [] then []
    else
      var last := links[|links| - 1];
      Extracted(links[..|links| - 1], digest) + (if Kept(last) then [Record(last, digest)] else [])
  }

  /** Every extracted record has a meaningful title, a url that is the
      normalisation of some link's href, and the key of that title and url. */
  lemma {:induction false} ExtractedRecords(links: seq<Link>, digest: string -> string)
    ensures forall a :: a in Extracted(links, digest) ==>
              Meaningful(a.title) && a.key == digest(a.title + a.url) &&
              exists l :: l in links && a.url == Normalize(l.href)
  {
    if links != [] {
      var init, last := links[..|links| - 1], links[|links| - 1];
      ExtractedRecords(init, digest);
      assert forall l :: l in init ==> l in links;
      assert last in links;
    }
  }

  /** What `fetch_announcements` returns for a page: nothing when the
      request failed, otherwise the records of the first ten links. */
  function Scraped(page: Option<seq<Link>>, digest: string -> string): (anns: seq<Announcement>)
    ensures page.None? ==> anns == []
    ensures |anns| <= LinkLimit
  {
    match page
    case None => []
    case Some(links) => Extracted(Window(links), digest)
  }

  /** The extracted records are exactly the records of the kept links, in
      the order of those links: the j-th record comes from the j-th kept
      link. */
  lemma {:induction false} ExtractedEmbedding(links: seq<Link>, digest: string -> string)
    ensures |Extracted(links, digest)| == |Positions(links, Kept)|
    ensures forall j :: 0 <= j < |Extracted(links, digest)| ==>
              Extracted(links, digest)[j] == Record(links[Positions(links, Kept)[j]], digest)
  {
    if links != [] {
      var init := links[..|links| - 1];
      var last := links[|links| - 1];
      ExtractedEmbedding(init, digest);
      var e, ei := Extracted(links, digest), Extracted(init, digest);
      var p, pi := Positions(links, Kept), Positions(init, Kept);
      assert e == ei + (if Kept(last) then [Record(last, digest)] else []);
      assert p == pi + (if Kept(last) then [|links| - 1] else []);
      forall j | 0 <= j < |e|
        ensures e[j] == Record(links[p[j]], digest)
      {
        if j < |ei| {
          assert e[j] == ei[j] && p[j] == pi[j] && pi[j] < |init|;
          assert init[pi[j]] == links[pi[j]];
        } else {
          assert Kept(last) && e[j] == Record(last, digest) && p[j] == |links| - 1;
        }
      }
    }
  }

  /** The source's link loop: examine the first ten links, normalise each
      href, keep the meaningful titles, attach the key. A failed request
      yields no records. */
  method FetchAnnouncements(page: Option<seq<Link>>, digest: string -> string)
    returns (anns: seq<Announcement>)
    ensures anns == Scraped(page, digest)
    ensures |anns| <= LinkLimit
  {
    if page.None? {
      return [];
    }
    assert Scraped(page, digest) == Extracted(Window(page.value), digest);
    var window := Window(page.value);
    anns := [];
    var i := 0;
    while i < |window|
      invariant 0 <= i <= |window|
      invariant anns == Extracted(window[..i], digest)
    {
      var link := window[i];
      var title := link.text;
      var url := Normalize(link.href);
      if Meaningful(title) {
        anns := anns + [Announcement(title, url, digest(title + url))];
      }
      assert window[..i + 1][..i] == window[..i];
      i := i + 1;
    }
    assert window[..i] == window;
  }
}
