/**
 * The post normalisation of forum_parser.py: selecting the post on a fetched
 * page, and the passes that turn its message content into the text of a
 * preview (tweets, images and smilies, videos, quotes, links, newlines).
 *
 * The HTML tree is flattened: the message content of the selected post is the
 * sequence of its nodes in document order, each node of a kind that one of the
 * passes looks for, or plain text. A pass that rewrites a node replaces it by
 * the string the source puts in its place.
 */
module Parsers {
  import opened Wrappers
  import opened Strings
  import opened Links

  /** A node of a post's message content. */
  datatype Node =
    | Text(text: string)
      /** `<img>` with its classes and `src`. */
    | Img(classes: seq<string>, src: string)
      /** The twitter player iframe, with its `src`. */
    | Tweet(src: string)
      /** The site's video wrapper, with the `src` of the iframe inside it, if there is one. */
    | Video(player: Option<string>)
      /** A quote's attribution line, with the `href` of its link, if there is one. */
    | Attribution(text: string, href: Option<string>)
      /** A quote's body. */
    | Quote(text: string)
      /** A quote's "click to expand" control. */
    | QuoteExpand(text: string)
      /** `<a>`, with its `href` attribute if it has one. */
    | Anchor(text: string, href: Option<string>)
    | Script(text: string)

  /** The exceptions a parse can end in. */
  datatype ParseError =
      /** A neogaf thread page without an OP marker: `None.parent`. */
    | NoThreadOp
      /** A twitter iframe whose `src` has no `.html#`: IndexError. */
    | TweetWithoutId
      /** More smilies than recorded images: IndexError. */
    | MissingImage
      /** A video wrapper without an iframe: TypeError. */
    | PlayerWithoutFrame
      /** An attribution without a link: TypeError or KeyError. */
    | AttributionWithoutLink

  /** `site_base_url`. */
  function SiteBase(site: Site): string
  {
    match site
    case Era => "https://www.resetera.com/"
    case Gaf => "https://neogaf.com/"
  }

  // ---------------------------------------------------------------------------
  // Counting nodes

  /** How many nodes of `ns` satisfy `p`. */
  function Count(ns: seq<Node>, p: Node -> bool): (r: nat)
    ensures r <= |ns|
  {
    if ns == [] then 0 else Count(ns[..|ns| - 1], p) + (if p(ns[|ns| - 1]) then 1 else 0)
  }

  lemma {:induction false} CountPrefix(ns: seq<Node>, m: nat, p: Node -> bool)
    requires m <= |ns|
    ensures Count(ns[..m], p) <= Count(ns, p)
    decreases |ns| - m
  {
    if m < |ns| {
      assert ns[..m + 1][..m] == ns[..m];
      CountPrefix(ns, m + 1, p);
    } else {
      assert ns[..m] == ns;
    }
  }

  /** Two posts whose nodes agree on `p` position by position have as many such nodes. */
  lemma {:induction false} CountPointwise(ns: seq<Node>, ms: seq<Node>, p: Node -> bool)
    requires |ns| == |ms|
    requires forall i :: 0 <= i < |ns| ==> (p(ns[i]) <==> p(ms[i]))
    ensures Count(ns, p) == Count(ms, p)
    decreases |ns|
  {
    if ns != [] {
      var n := |ns| - 1;
      assert forall i :: 0 <= i < n ==> ns[..n][i] == ns[i] && ms[..n][i] == ms[i];
      CountPointwise(ns[..n], ms[..n], p);
    }
  }

  /** A node satisfying `p` has fewer such nodes before it than there are in all. */
  lemma CountRank(ns: seq<Node>, i: nat, p: Node -> bool)
    requires i < |ns| && p(ns[i])
    ensures Count(ns[..i], p) < Count(ns, p)
  {
    assert ns[..i + 1][..i] == ns[..i];
    CountPrefix(ns, i + 1, p);
  }

  // ---------------------------------------------------------------------------
  // get_post

  /**
   * A candidate post on a fetched page: its id (`li` id on resetera,
   * `data-content` on neogaf), whether it carries the "Original Poster" marker,
   * the `src` of its avatar image, and its message content.
   */
  datatype Entry = Entry(key: string, isOp: bool, avatar: Option<string>, body: seq<Node>)

  /** The first post with the given id (`page.find`). */
  function FirstKey(page: seq<Entry>, key: string): (r: Option<nat>)
    ensures r.Some? ==> r.value < |page| && page[r.value].key == key
    ensures r.Some? ==> forall j :: 0 <= j < r.value ==> page[j].key != key
    ensures r.None? ==> forall j :: 0 <= j < |page| ==> page[j].key != key
  {
    if page == [] then None
    else if page[0].key == key then Some(0)
    else
      match FirstKey(page[1..], key)
      case None => None
      case Some(i) => Some(i + 1)
  }

  /** The first post with the OP marker. */
  function FirstOp(page: seq<Entry>): (r: Option<nat>)
    ensures r.Some? ==> r.value < |page| && page[r.value].isOp
    ensures r.Some? ==> forall j :: 0 <= j < r.value ==> !page[j].isOp
    ensures r.None? ==> forall j :: 0 <= j < |page| ==> !page[j].isOp
  {
    if page == [] then None
    else if page[0].isOp then Some(0)
    else
      match FirstOp(page[1..])
      case None => None
      case Some(i) => Some(i + 1)
  }

  /** `get_post`: the post a link names, `None` where the source leaves `self.post` unset. */
  function Select(page: seq<Entry>, site: Site, kind: Kind, postId: string): Result<Option<Entry>, ParseError>
  {
    var i := if kind == Post then FirstKey(page, postId) else FirstOp(page);
    if i.None? && site == Gaf && kind == Thread then Failure(NoThreadOp)
    else Success(if i.Some? then Some(page[i.value]) else None)
  }

  /** The first matching post is the one selected, on either site. */
  lemma SelectFirst(page: seq<Entry>, site: Site, kind: Kind, postId: string, i: nat)
    requires i < |page|
    requires kind == Post ==> page[i].key == postId && forall j :: 0 <= j < i ==> page[j].key != postId
    requires kind == Thread ==> page[i].isOp && forall j :: 0 <= j < i ==> !page[j].isOp
    ensures Select(page, site, kind, postId) == Success(Some(page[i]))
  {
    if kind == Post {
      assert FirstKey(page, postId) == Some(i);
    } else {
      assert FirstOp(page) == Some(i);
    }
  }

  /** Without a matching post, a neogaf thread raises and every other link selects nothing. */
  lemma SelectNone(page: seq<Entry>, site: Site, kind: Kind, postId: string)
    requires kind == Post ==> forall j :: 0 <= j < |page| ==> page[j].key != postId
    requires kind == Thread ==> forall j :: 0 <= j < |page| ==> !page[j].isOp
    ensures Select(page, site, kind, postId) ==
      if site == Gaf && kind == Thread then Failure(NoThreadOp) else Success(None)
  {
  }

  // ---------------------------------------------------------------------------
  // twitter_embed

  const TweetSep: string := ".html#"
  const TweetBase: string := "https://twitter.com/user/status/"

  /**
   * `src.split('.html#')[1]`: the text between the first separator and the
   * next one (or the end); `None` where Python raises IndexError.
   */
  function TweetId(src: string): (r: Option<string>)
    ensures r.Some? <==> Contains(src, TweetSep)
    ensures r.Some? ==>
      |Before(src, TweetSep)| + |TweetSep| <= |src| && OccursAt(src, TweetSep, |Before(src, TweetSep)|)
    ensures r.Some? ==>
      var tail := src[|Before(src, TweetSep)| + |TweetSep|..];
      r.value <= tail && (r.value == tail || OccursAt(tail, TweetSep, |r.value|)) &&
      forall j: nat :: j < |r.value| ==> !OccursAt(tail, TweetSep, j)
  {
    match After(src, TweetSep)
    case None => None
    case Some(tail) =>
      assert src[|Before(src, TweetSep)| + |TweetSep|..] == tail;
      Some(Before(tail, TweetSep))
  }

  function TweetNode(n: Node): Node
    requires n.Tweet? ==> Contains(n.src, TweetSep)
  {
    if n.Tweet? then Text(TweetBase + TweetId(n.src).value) else n
  }

  /** Every twitter iframe has a tweet id in its `src`. */
  predicate TweetsResolve(ns: seq<Node>)
  {
    forall i :: 0 <= i < |ns| && ns[i].Tweet? ==> Contains(ns[i].src, TweetSep)
  }

  /** The post after `twitter_embed`: each twitter iframe becomes its tweet's URL. */
  function Tweeted(ns: seq<Node>): seq<Node>
    requires TweetsResolve(ns)
  {
    seq(|ns|, i requires 0 <= i < |ns| => TweetNode(ns[i]))
  }

  // ---------------------------------------------------------------------------
  // format_images

  const BbClass: string := "bb"
  const SmilieClass: string := "smilie"

  /** An image matched by `class_=re.compile("bb")`: one of its classes contains `bb`. */
  predicate IsBb(n: Node)
  {
    n.Img? && exists k :: 0 <= k < |n.classes| && Contains(n.classes[k], BbClass)
  }

  /** An image matched by `class_="smilie"`. */
  predicate IsSmilie(n: Node)
  {
    n.Img? && SmilieClass in n.classes
  }

  /** The sources of the `bb` images, in document order. */
  function BbSources(ns: seq<Node>): (r: seq<string>)
    ensures |r| == Count(ns, IsBb)
  {
    if ns == [] then []
    else
      var last := ns[|ns| - 1];
      BbSources(ns[..|ns| - 1]) + (if IsBb(last) then [last.src] else [])
  }

  /** The k-th `bb` image of the post is the k-th recorded image. */
  lemma {:induction false} BbSourcesInOrder(ns: seq<Node>, i: nat)
    requires i < |ns| && IsBb(ns[i])
    ensures Count(ns[..i], IsBb) < |BbSources(ns)|
    ensures BbSources(ns)[Count(ns[..i], IsBb)] == ns[i].src
    decreases |ns|
  {
    var init := ns[..|ns| - 1];
    if i < |init| {
      assert init[i] == ns[i] && init[..i] == ns[..i];
      BbSourcesInOrder(init, i);
    } else {
      assert ns[..i] == init;
    }
  }

  /** One more node: the image pass records it if it is a `bb` image, and neogaf keeps it otherwise. */
  lemma BbStep(ns: seq<Node>, i: nat)
    requires i < |ns|
    ensures BbSources(ns[..i + 1]) == BbSources(ns[..i]) + (if IsBb(ns[i]) then [ns[i].src] else [])
    ensures WithoutBb(ns[..i + 1]) == WithoutBb(ns[..i]) + (if IsBb(ns[i]) then [] else [ns[i]])
    ensures EraImages(ns[..i + 1]) == EraImages(ns[..i]) + [EraImage(ns[i])]
  {
    assert ns[..i + 1][..i] == ns[..i];
  }
  /** What the image pass of `site` puts in place of one node: a `bb` image becomes its `src` or goes. */
  function ImageNode(site: Site, n: Node): seq<Node>
  {
    if !IsBb(n) then [n] else if site == Era then [Text(n.src)] else []
  }

  /** The post after the image pass of `site`. */
  function ImagePass(site: Site, ns: seq<Node>): seq<Node>
  {
    if site == Era then EraImages(ns) else WithoutBb(ns)
  }

  /** On resetera the image pass replaces the `bb` images; on neogaf it removes them. */
  lemma ImagePassSites(site: Site, ns: seq<Node>)
    ensures site == Era ==> ImagePass(site, ns) == EraImages(ns)
    ensures site == Gaf ==> ImagePass(site, ns) == WithoutBb(ns)
  {
  }

  /** One more node: the image pass appends what it puts in that node's place. */
  lemma ImagePassStep(site: Site, ns: seq<Node>, i: nat)
    requires i < |ns|
    ensures BbSources(ns[..i + 1]) == BbSources(ns[..i]) + (if IsBb(ns[i]) then [ns[i].src] else [])
    ensures ImagePass(site, ns[..i + 1]) == ImagePass(site, ns[..i]) + ImageNode(site, ns[i])
  {
    BbStep(ns, i);
  }


  function EraImage(n: Node): Node
  {
    if IsBb(n) then Text(n.src) else n
  }

  /** The post after the resetera image pass: each `bb` image becomes its `src`. */
  function EraImages(ns: seq<Node>): (r: seq<Node>)
    ensures |r| == |ns|
  {
    if ns == [] then [] else EraImages(ns[..|ns| - 1]) + [EraImage(ns[|ns| - 1])]
  }

  /** The resetera image pass replaces each node by `EraImage` of it, in place. */
  lemma {:induction false} EraImagesAt(ns: seq<Node>, i: nat)
    requires i < |ns|
    ensures EraImages(ns)[i] == EraImage(ns[i])
    decreases |ns|
  {
    var init := ns[..|ns| - 1];
    if i < |init| {
      assert init[i] == ns[i];
      EraImagesAt(init, i);
    }
  }

  /** The post after the neogaf image pass: the `bb` images are removed. */
  function WithoutBb(ns: seq<Node>): (r: seq<Node>)
    ensures |r| + Count(ns, IsBb) == |ns|
    ensures forall j :: 0 <= j < |r| ==> !IsBb(r[j])
  {
    if ns == [] then []
    else
      var last := ns[|ns| - 1];
      WithoutBb(ns[..|ns| - 1]) + (if IsBb(last) then [] else [last])
  }

  /** Removing the `bb` images keeps every other node, in order. */
  lemma {:induction false} WithoutBbInOrder(ns: seq<Node>, i: nat)
    requires i < |ns| && !IsBb(ns[i])
    ensures Count(ns[..i], IsBb) <= i
    ensures i - Count(ns[..i], IsBb) < |WithoutBb(ns)|
    ensures WithoutBb(ns)[i - Count(ns[..i], IsBb)] == ns[i]
    decreases |ns|
  {
    var init := ns[..|ns| - 1];
    if i < |init| {
      assert init[i] == ns[i] && init[..i] == ns[..i];
      WithoutBbInOrder(init, i);
    } else {
      assert ns[..i] == init;
    }
  }

  /** Removing the `bb` images removes no video wrapper. */
  lemma {:induction false} WithoutBbKeepsVideos(ns: seq<Node>)
    ensures Count(WithoutBb(ns), IsVideo) == Count(ns, IsVideo)
    decreases |ns|
  {
    if ns != [] {
      var init := ns[..|ns| - 1];
      var last := ns[|ns| - 1];
      WithoutBbKeepsVideos(init);
      var w := WithoutBb(init);
      if IsBb(last) {
        assert WithoutBb(ns) == w + [] == w;
      } else {
        assert (w + [last])[..|w|] == w;
      }
    }
  }

  /**
   * The neogaf smilie pass: the k-th smilie becomes the k-th recorded image
   * followed by a newline.
   */
  function Filled(ns: seq<Node>, images: seq<string>): (r: seq<Node>)
    requires Count(ns, IsSmilie) <= |images|
    ensures |r| == |ns|
  {
    if ns == [] then []
    else
      var init := ns[..|ns| - 1];
      var last := ns[|ns| - 1];
      Filled(init, images) + [if IsSmilie(last) then Text(images[Count(init, IsSmilie)] + "\n") else last]
  }

  /**
   * What the smilie pass puts at position `i`: the k-th smilie becomes the
   * k-th recorded image followed by a newline, every other node stays.
   */
  lemma {:induction false} FilledAt(ns: seq<Node>, images: seq<string>, i: nat)
    requires Count(ns, IsSmilie) <= |images| && i < |ns|
    ensures IsSmilie(ns[i]) ==>
      Count(ns[..i], IsSmilie) < |images| && Filled(ns, images)[i] == Text(images[Count(ns[..i], IsSmilie)] + "\n")
    ensures !IsSmilie(ns[i]) ==> Filled(ns, images)[i] == ns[i]
    decreases |ns|
  {
    var init := ns[..|ns| - 1];
    if i < |init| {
      assert init[i] == ns[i] && init[..i] == ns[..i];
      FilledAt(init, images, i);
    } else {
      assert ns[..i] == init;
    }
  }

  /** One more node of the post: the count of `p` grows by one exactly when the node satisfies `p`. */
  lemma CountStep(ns: seq<Node>, i: nat, p: Node -> bool)
    requires i < |ns|
    ensures Count(ns[..i + 1], p) == Count(ns[..i], p) + (if p(ns[i]) then 1 else 0)
  {
    assert ns[..i + 1][..i] == ns[..i];
  }

  /** One more node of the post: the smilie pass appends what it puts in that node's place. */
  lemma FilledStep(ns: seq<Node>, images: seq<string>, i: nat)
    requires i < |ns| && Count(ns[..i + 1], IsSmilie) <= |images|
    requires Count(ns[..i + 1], IsSmilie) == Count(ns[..i], IsSmilie) + (if IsSmilie(ns[i]) then 1 else 0)
    ensures Filled(ns[..i + 1], images) == Filled(ns[..i], images) +
      [if IsSmilie(ns[i]) then Text(images[Count(ns[..i], IsSmilie)] + "\n") else ns[i]]
  {
    assert ns[..i + 1][..i] == ns[..i];
  }

  // ---------------------------------------------------------------------------
  // youtube_embed

  predicate IsVideo(n: Node)
  {
    n.Video?
  }

  /** Every video wrapper holds a player iframe. */
  predicate PlayersPresent(ns: seq<Node>)
  {
    forall i :: 0 <= i < |ns| && ns[i].Video? ==> ns[i].player.Some?
  }

  /** The player URLs, in document order. */
  function Players(ns: seq<Node>): (r: seq<string>)
    requires PlayersPresent(ns)
    ensures |r| == Count(ns, IsVideo)
  {
    if ns == [] then []
    else
      var init := ns[..|ns| - 1];
      var last := ns[|ns| - 1];
      assert forall i :: 0 <= i < |init| ==> init[i] == ns[i];
      Players(init) + (if last.Video? then [last.player.value] else [])
  }

  /** The k-th video of the post is the k-th recorded video. */
  lemma {:induction false} PlayersInOrder(ns: seq<Node>, i: nat)
    requires PlayersPresent(ns) && i < |ns| && ns[i].Video?
    ensures Count(ns[..i], IsVideo) < |Players(ns)|
    ensures Players(ns)[Count(ns[..i], IsVideo)] == ns[i].player.value
    decreases |ns|
  {
    var init := ns[..|ns| - 1];
    assert forall j :: 0 <= j < |init| ==> init[j] == ns[j];
    if i < |init| {
      assert init[..i] == ns[..i];
      PlayersInOrder(init, i);
    } else {
      assert ns[..i] == init;
    }
  }

  /** One more node: the video pass records its player if it is a video wrapper. */
  lemma PlayersStep(ns: seq<Node>, i: nat)
    requires i < |ns| && PlayersPresent(ns[..i]) && (ns[i].Video? ==> ns[i].player.Some?)
    ensures PlayersPresent(ns[..i + 1])
    ensures Players(ns[..i + 1]) == Players(ns[..i]) + (if ns[i].Video? then [ns[i].player.value] else [])
    ensures Embedded(ns[..i + 1]) == Embedded(ns[..i]) + [Embed(ns[i])]
  {
    assert ns[..i + 1][..i] == ns[..i];
    assert forall j :: 0 <= j < i ==> ns[..i + 1][j] == ns[..i][j];
  }

  function Embed(n: Node): Node
    requires n.Video? ==> n.player.Some?
  {
    if n.Video? then Text(n.player.value) else n
  }

  /** The post after `youtube_embed`: each video wrapper becomes its player URL. */
  function Embedded(ns: seq<Node>): (r: seq<Node>)
    requires PlayersPresent(ns)
    ensures |r| == |ns|
  {
    if ns == [] then []
    else
      var init := ns[..|ns| - 1];
      assert forall i :: 0 <= i < |init| ==> init[i] == ns[i];
      Embedded(init) + [Embed(ns[|ns| - 1])]
  }

  /** The video pass puts at position `i` the player URL of a video wrapper, and keeps every other node. */
  lemma {:induction false} EmbeddedAt(ns: seq<Node>, i: nat)
    requires PlayersPresent(ns) && i < |ns|
    ensures ns[i].Video? ==> Embedded(ns)[i] == Text(ns[i].player.value)
    ensures !ns[i].Video? ==> Embedded(ns)[i] == ns[i]
    decreases |ns|
  {
    var init := ns[..|ns| - 1];
    assert forall j :: 0 <= j < |init| ==> init[j] == ns[j];
    if i < |init| {
      EmbeddedAt(init, i);
    }
  }

  // ---------------------------------------------------------------------------
  // format_quotes and attribute_quote

  const Said: string := "said:"

  /**
   * `attribute_quote`: the poster's name is the text before the first
   * `said:`; with a link, a Markdown link to the quoted post.
   */
  function AttributeQuote(text: string, href: string, base: string): string
  {
    var name := Before(text, Said);
    if href != "" then "[" + name + " said:](" + base + href + ")" else name + " said:"
  }

  /**
   * The attribution is built from the prefix of the text that ends at its
   * first `said:` (or from all of the text when there is none).
   */
  lemma AttributionNamed(text: string, href: string, base: string, n: nat)
    requires n <= |text|
    requires OccursAt(text, Said, n) || (n == |text| && !Contains(text, Said))
    requires forall j: nat :: j < n ==> !OccursAt(text, Said, j)
    ensures AttributeQuote(text, href, base) ==
      if href != "" then "[" + text[..n] + " said:](" + base + href + ")" else text[..n] + " said:"
  {
    BeforeIs(text, Said, n);
  }

  predicate IsExpand(n: Node)
  {
    n.QuoteExpand?
  }

  /** A node `format_quotes` rewrites or removes. */
  predicate IsQuotePart(n: Node)
  {
    n.Attribution? || n.Quote? || n.QuoteExpand?
  }

  /** Every attribution has a link. */
  predicate AttributionsLinked(ns: seq<Node>)
  {
    forall i :: 0 <= i < |ns| && ns[i].Attribution? ==> ns[i].href.Some?
  }

  lemma LinkedStep(ns: seq<Node>, i: nat)
    requires i < |ns| && AttributionsLinked(ns[..i]) && (ns[i].Attribution? ==> ns[i].href.Some?)
    ensures AttributionsLinked(ns[..i + 1])
  {
    assert forall j :: 0 <= j < i ==> ns[..i + 1][j] == ns[..i][j];
  }

  /** What `format_quotes` puts in place of one node. */
  function QuoteNode(n: Node, base: string): seq<Node>
    requires n.Attribution? ==> n.href.Some?
  {
    match n
    case Attribution(t, h) => [Text(AttributeQuote(t, h.value, base))]
    case Quote(t) => [Text(Fence + t + Fence)]
    case QuoteExpand(_) => []
    case _ => [n]
  }

  /** One more node: the quote pass appends what it puts in that node's place. */
  lemma QuotedStep(ns: seq<Node>, base: string, i: nat)
    requires i < |ns| && AttributionsLinked(ns[..i + 1])
    ensures AttributionsLinked(ns[..i]) && (ns[i].Attribution? ==> ns[i].href.Some?)
    ensures Quoted(ns[..i + 1], base) == Quoted(ns[..i], base) + QuoteNode(ns[i], base)
  {
    assert ns[..i + 1][..i] == ns[..i];
    assert ns[..i + 1][i] == ns[i];
    assert forall j :: 0 <= j < i ==> ns[..i + 1][j] == ns[..i][j];
  }

  /**
   * The post after `format_quotes`: attributions become their Markdown line,
   * bodies are wrapped in code fences, expand controls are removed.
   */
  function Quoted(ns: seq<Node>, base: string): (r: seq<Node>)
    requires AttributionsLinked(ns)
    ensures |r| + Count(ns, IsExpand) == |ns|
    ensures forall j :: 0 <= j < |r| ==> !IsQuotePart(r[j])
  {
    if ns == [] then []
    else
      var init := ns[..|ns| - 1];
      assert forall i :: 0 <= i < |init| ==> init[i] == ns[i];
      Quoted(init, base) + QuoteNode(ns[|ns| - 1], base)
  }

  /**
   * Every node but an expand control keeps its place in order, moved left by
   * the expand controls before it: an attribution becomes its Markdown line,
   * a quote body is wrapped in code fences, and any other node stays.
   */
  lemma {:induction false} QuotedAt(ns: seq<Node>, base: string, i: nat)
    requires AttributionsLinked(ns) && i < |ns| && !IsExpand(ns[i])
    ensures Count(ns[..i], IsExpand) <= i
    ensures i - Count(ns[..i], IsExpand) < |Quoted(ns, base)|
    ensures ns[i].Attribution? ==>
      Quoted(ns, base)[i - Count(ns[..i], IsExpand)] == Text(AttributeQuote(ns[i].text, ns[i].href.value, base))
    ensures ns[i].Quote? ==> Quoted(ns, base)[i - Count(ns[..i], IsExpand)] == Text(Fence + ns[i].text + Fence)
    ensures !IsQuotePart(ns[i]) ==> Quoted(ns, base)[i - Count(ns[..i], IsExpand)] == ns[i]
    decreases |ns|
  {
    var init := ns[..|ns| - 1];
    assert forall j :: 0 <= j < |init| ==> init[j] == ns[j];
    var q := Quoted(init, base);
    assert Quoted(ns, base) == q + QuoteNode(ns[|ns| - 1], base);
    if i < |init| {
      assert init[..i] == ns[..i];
      QuotedAt(init, base, i);
      assert (q + QuoteNode(ns[|ns| - 1], base))[i - Count(ns[..i], IsExpand)] == q[i - Count(ns[..i], IsExpand)];
    } else {
      assert ns[..i] == init;
      assert i - Count(ns[..i], IsExpand) == |q|;
    }
  }

  // ---------------------------------------------------------------------------
  // get_contents and mark_down_links

  /** `mark_down_links` on one node: a link with text and `href` becomes `[text](href)`. */
  function MarkDown(n: Node): Node
  {
    if n.Anchor? && n.href.Some? && n.text != "" then Text("[" + n.text + "](" + n.href.value + ")") else n
  }

  function MarkedDown(ns: seq<Node>): seq<Node>
  {
    seq(|ns|, i requires 0 <= i < |ns| => MarkDown(ns[i]))
  }

  predicate IsScript(n: Node)
  {
    n.Script?
  }

  /** The post with its scripts removed. */
  function WithoutScripts(ns: seq<Node>): (r: seq<Node>)
    ensures |r| + Count(ns, IsScript) == |ns|
    ensures forall j :: 0 <= j < |r| ==> !r[j].Script?
  {
    if ns == [] then []
    else
      var last := ns[|ns| - 1];
      WithoutScripts(ns[..|ns| - 1]) + (if last.Script? then [] else [last])
  }

  /** Removing the scripts keeps every other node, in order. */
  lemma {:induction false} WithoutScriptsInOrder(ns: seq<Node>, i: nat)
    requires i < |ns| && !IsScript(ns[i])
    ensures Count(ns[..i], IsScript) <= i
    ensures i - Count(ns[..i], IsScript) < |WithoutScripts(ns)|
    ensures WithoutScripts(ns)[i - Count(ns[..i], IsScript)] == ns[i]
    decreases |ns|
  {
    var init := ns[..|ns| - 1];
    if i < |init| {
      assert init[i] == ns[i] && init[..i] == ns[..i];
      WithoutScriptsInOrder(init, i);
    } else {
      assert ns[..i] == init;
    }
  }

  /** One more node: removing scripts appends it unless it is a script. */
  lemma ScriptsStep(ns: seq<Node>, i: nat)
    requires i < |ns|
    ensures WithoutScripts(ns[..i + 1]) == WithoutScripts(ns[..i]) + (if ns[i].Script? then [] else [ns[i]])
  {
    assert ns[..i + 1][..i] == ns[..i];
  }

  /** `get_text` of one node; images, iframes and players carry no text. */
  function NodeText(n: Node): string
  {
    match n
    case Text(t) => t
    case Img(_, _) => ""
    case Tweet(_) => ""
    case Video(_) => ""
    case Attribution(t, _) => t
    case Quote(t) => t
    case QuoteExpand(t) => t
    case Anchor(t, _) => t
    case Script(t) => t
  }

  /** `get_text` of the post: the texts of its nodes, in order. */
  function TextOf(ns: seq<Node>): string
  {
    if ns == [] then "" else TextOf(ns[..|ns| - 1]) + NodeText(ns[|ns| - 1])
  }

  /** A link that is not marked down (no `href`, or no text) keeps its text. */
  predicate Plain(n: Node)
  {
    n.Anchor? ==> n.href.None? || n.text == ""
  }

  /** Without links to mark down, `mark_down_links` leaves the text as it was. */
  lemma {:induction false} PlainLinksKeepText(ns: seq<Node>)
    requires forall i :: 0 <= i < |ns| ==> Plain(ns[i])
    ensures TextOf(MarkedDown(ns)) == TextOf(ns)
    decreases |ns|
  {
    if ns != [] {
      var init := ns[..|ns| - 1];
      assert MarkedDown(ns)[..|ns| - 1] == MarkedDown(init);
      PlainLinksKeepText(init);
      assert MarkDown(ns[|ns| - 1]) == ns[|ns| - 1];
    }
  }

  /** No newline directly follows another. */
  predicate NoBlankLines(s: string)
  {
    forall i :: 0 <= i < |s| - 1 ==> !(s[i] == '\n' && s[i + 1] == '\n')
  }

  /** `s` with its newlines removed. */
  function Letters(s: string): string
  {
    if s == "" then "" else (if s[0] == '\n' then "" else [s[0]]) + Letters(s[1..])
  }

  function StartsWithNewline(s: string): bool
  {
    |s| > 0 && s[0] == '\n'
  }

  /** `re.sub('\n+', '\n', s)`: each run of newlines becomes one newline. */
  function Collapse(s: string): (r: string)
    ensures |r| <= |s|
    ensures NoBlankLines(r)
    ensures Letters(r) == Letters(s)
    ensures StartsWithNewline(r) <==> StartsWithNewline(s)
  {
    if |s| <= 1 then s
    else if s[0] == '\n' && s[1] == '\n' then Collapse(s[1..])
    else
      var r := [s[0]] + Collapse(s[1..]);
      assert r[1..] == Collapse(s[1..]);
      r
  }

  /** Text that has no blank lines is left as it is. */
  lemma {:induction false} CollapseKeepsSingleNewlines(s: string)
    requires NoBlankLines(s)
    ensures Collapse(s) == s
    decreases |s|
  {
    if |s| > 1 {
      assert NoBlankLines(s[1..]) by {
        forall i | 0 <= i < |s[1..]| - 1 ensures !(s[1..][i] == '\n' && s[1..][i + 1] == '\n') {
          assert s[1..][i] == s[i + 1] && s[1..][i + 1] == s[i + 2];
        }
      }
      CollapseKeepsSingleNewlines(s[1..]);
      assert s == [s[0]] + s[1..];
    }
  }

  /** Collapsing twice is collapsing once. */
  lemma CollapseIdempotent(s: string)
    ensures Collapse(Collapse(s)) == Collapse(s)
  {
    CollapseKeepsSingleNewlines(Collapse(s));
  }

  /** The newline at `i` is directly followed by another: `\n+` keeps one newline per run, so it goes. */
  predicate Dropped(s: string, i: nat)
  {
    i + 1 < |s| && s[i] == '\n' && s[i + 1] == '\n'
  }

  /** How many of the first `n` positions of `s` are dropped. */
  function Drops(s: string, n: nat): (r: nat)
    ensures r <= n
  {
    if n == 0 then 0 else Drops(s, n - 1) + (if Dropped(s, n - 1) then 1 else 0)
  }

  /** Counting the drops of `s` is counting its first position, then the drops of its tail. */
  lemma {:induction false} DropsShift(s: string, n: nat)
    requires 1 <= n <= |s|
    ensures Drops(s, n) == (if Dropped(s, 0) then 1 else 0) + Drops(s[1..], n - 1)
  {
    if n > 1 {
      DropsShift(s, n - 1);
      assert Dropped(s, n - 1) == Dropped(s[1..], n - 2);
    }
  }

  /** Collapsing removes exactly the dropped newlines. */
  lemma {:induction false} CollapseLength(s: string)
    ensures |Collapse(s)| == |s| - Drops(s, |s|)
    decreases |s|
  {
    if |s| <= 1 {
      assert !Dropped(s, 0);
    } else {
      DropsShift(s, |s|);
      CollapseLength(s[1..]);
    }
  }

  /**
   * Collapsing keeps every character that is not a dropped newline, in order:
   * the one at `i` moves left by the number of drops before it.
   */
  lemma {:induction false} CollapseAt(s: string, i: nat)
    requires i < |s| && !Dropped(s, i)
    ensures i - Drops(s, i) < |Collapse(s)|
    ensures Collapse(s)[i - Drops(s, i)] == s[i]
    decreases |s|
  {
    if |s| <= 1 {
      assert Collapse(s) == s;
    } else if i == 0 {
      CollapseCons(s);
    } else {
      var t := s[1..];
      DropsShift(s, i);
      assert Dropped(s, i) == Dropped(t, i - 1);
      CollapseAt(t, i - 1);
      CollapseCons(s);
      var c := Collapse(t);
      var k := i - 1 - Drops(t, i - 1);
      var d := if Dropped(s, 0) then [] else [s[0]];
      assert c[k] == s[i];
      assert Collapse(s) == d + c;
      assert i - Drops(s, i) == |d| + k;
      assert (d + c)[|d| + k] == c[k];
    }
  }

  /** One step of collapsing: the first character goes exactly when it is a dropped newline. */
  lemma CollapseCons(s: string)
    requires |s| > 1
    ensures Collapse(s) == (if Dropped(s, 0) then [] else [s[0]]) + Collapse(s[1..])
  {
    if Dropped(s, 0) {
      assert [] + Collapse(s[1..]) == Collapse(s[1..]);
    }
  }

  /**
   * The text normalisation of `get_contents`: collapse newline runs, then
   * drop one leading newline.
   */
  function Normalise(s: string): (r: string)
    ensures NoBlankLines(r)
    ensures !StartsWithNewline(r)
    ensures Letters(r) == Letters(s)
  {
    var c := Collapse(s);
    if StartsWithNewline(c) then
      assert Letters(c) == Letters(c[1..]);
      assert |c| > 1 ==> !(c[0] == '\n' && c[1] == '\n');
      c[1..]
    else c
  }

  /** The normalised text is the collapsed text less one leading newline, when the input starts with one. */
  lemma NormaliseLength(s: string)
    ensures |Normalise(s)| == |s| - Drops(s, |s|) - (if StartsWithNewline(s) then 1 else 0)
  {
    CollapseLength(s);
  }

  /**
   * When the input starts with a newline, normalising keeps every character
   * that is not a dropped newline nor the leading newline, in order.
   */
  lemma {:induction false} NormaliseAtLead(s: string, i: nat)
    requires i < |s| && !Dropped(s, i) && StartsWithNewline(s) && i != Drops(s, i)
    ensures 1 <= i - Drops(s, i) && i - Drops(s, i) - 1 < |Normalise(s)|
    ensures Normalise(s)[i - Drops(s, i) - 1] == s[i]
  {
    CollapseAt(s, i);
    NormaliseDrops(s);
    DropFirstAt(Collapse(s), Normalise(s), 1, i - Drops(s, i));
  }

  /** Otherwise normalising keeps every character that is not a dropped newline, in order. */
  lemma {:induction false} NormaliseAtPlain(s: string, i: nat)
    requires i < |s| && !Dropped(s, i) && !StartsWithNewline(s)
    ensures i - Drops(s, i) < |Normalise(s)|
    ensures Normalise(s)[i - Drops(s, i)] == s[i]
  {
    CollapseAt(s, i);
    NormaliseDrops(s);
  }

  /** Dropping the first `k` characters moves each later one left by `k`. */
  lemma DropFirstAt(c: string, n: string, k: nat, j: nat)
    requires k <= j < |c| && n == c[k..]
    ensures j - k < |n| && n[j - k] == c[j]
  {
  }

  /** The normalised text is the collapsed text, less its first character when the input starts with a newline. */
  lemma NormaliseDrops(s: string)
    ensures Normalise(s) == if StartsWithNewline(s) then Collapse(s)[1..] else Collapse(s)
  {
  }

  /** The text of the preview: scripts removed, links marked down, text normalised. */
  function Contents(ns: seq<Node>): string
  {
    Normalise(TextOf(MarkedDown(WithoutScripts(ns))))
  }

  // ---------------------------------------------------------------------------
  // parse

  /** What a successful parse of a selected post produces. */
  datatype Parsed = Parsed(avlink: Option<string>, images: seq<string>, videos: seq<string>, content: string)

  /**
   * The passes `parse` runs on a selected post, in the source's order: avatar,
   * tweets, images, videos, quotes, contents.
   */
  function Process(site: Site, avatar: Option<string>, body: seq<Node>): Result<Parsed, ParseError>
  {
    if !TweetsResolve(body) then Failure(TweetWithoutId)
    else ProcessImages(site, avatar, Tweeted(body))
  }

  /** The image pass and what follows it. */
  function ProcessImages(site: Site, avatar: Option<string>, tweeted: seq<Node>): Result<Parsed, ParseError>
  {
    var images := BbSources(tweeted);
    if site == Era then ProcessVideos(site, avatar, images, EraImages(tweeted))
    else
      var kept := WithoutBb(tweeted);
      if Count(kept, IsSmilie) > |images| then Failure(MissingImage)
      else ProcessVideos(site, avatar, images, Filled(kept, images))
  }

  /** The video pass and what follows it. */
  function ProcessVideos(site: Site, avatar: Option<string>, images: seq<string>, pictured: seq<Node>): Result<Parsed, ParseError>
  {
    if !PlayersPresent(pictured) then Failure(PlayerWithoutFrame)
    else ProcessQuotes(site, avatar, images, Players(pictured), Embedded(pictured))
  }

  /** The quote pass and the text of the post. */
  function ProcessQuotes(site: Site, avatar: Option<string>, images: seq<string>, videos: seq<string>, embedded: seq<Node>): Result<Parsed, ParseError>
  {
    if !AttributionsLinked(embedded) then Failure(AttributionWithoutLink)
    else
      var avlink := if avatar.Some? then Some(SiteBase(site) + avatar.value) else None;
      Success(Parsed(avlink, images, videos, Contents(Quoted(embedded, SiteBase(site)))))
  }

  /**
   * A successful parse yields text without blank lines or a leading newline,
   * one recorded image per `bb` image of the post and one recorded video per
   * video wrapper of the post.
   */
  lemma ProcessedPost(site: Site, avatar: Option<string>, body: seq<Node>)
    requires Process(site, avatar, body).Success?
    ensures var p := Process(site, avatar, body).value;
      NoBlankLines(p.content) && !StartsWithNewline(p.content) &&
      |p.images| == Count(body, IsBb) && |p.videos| == Count(body, IsVideo)
  {
    TweetedCounts(body);
    var t := Tweeted(body);
    if site == Era {
      EraImagesKeepVideos(t);
    } else {
      WithoutBbKeepsVideos(t);
      FilledKeepsVideos(WithoutBb(t), BbSources(t));
    }
  }

  /** The tweet pass turns only twitter iframes into text: images and videos stay. */
  lemma TweetedCounts(ns: seq<Node>)
    requires TweetsResolve(ns)
    ensures Count(Tweeted(ns), IsBb) == Count(ns, IsBb)
    ensures Count(Tweeted(ns), IsVideo) == Count(ns, IsVideo)
  {
    var t := Tweeted(ns);
    assert forall i :: 0 <= i < |ns| ==> t[i] == TweetNode(ns[i]);
    CountPointwise(ns, t, IsBb);
    CountPointwise(ns, t, IsVideo);
  }

  /** The resetera image pass turns only images into text: videos stay. */
  lemma EraImagesKeepVideos(ns: seq<Node>)
    ensures Count(EraImages(ns), IsVideo) == Count(ns, IsVideo)
  {
    var e := EraImages(ns);
    forall i | 0 <= i < |ns| ensures IsVideo(ns[i]) <==> IsVideo(e[i]) {
      EraImagesAt(ns, i);
    }
    CountPointwise(ns, e, IsVideo);
  }

  /** The smilie pass turns only smilies into text: videos stay. */
  lemma FilledKeepsVideos(ns: seq<Node>, images: seq<string>)
    requires Count(ns, IsSmilie) <= |images|
    ensures Count(Filled(ns, images), IsVideo) == Count(ns, IsVideo)
  {
    var f := Filled(ns, images);
    forall i | 0 <= i < |ns| ensures IsVideo(ns[i]) <==> IsVideo(f[i]) {
      FilledAt(ns, images, i);
    }
    CountPointwise(ns, f, IsVideo);
  }

  // ---------------------------------------------------------------------------
  // The class

  class ForumParser {
    const site: Site
    const kind: Kind
    /** The post id of the link (`post-<digits>`); unused for thread links. */
    const postId: string

    /** Whether `self.post` was found. */
    var found: bool
    /** The avatar image `src` of the selected post. */
    var avatar: Option<string>
    /** The message content of the selected post. */
    var body: seq<Node>
    var avlink: Option<string>
    var images: seq<string>
    var videos: seq<string>
    var content: Option<string>

    constructor (site: Site, kind: Kind, postId: string)
      ensures this.site == site && this.kind == kind && this.postId == postId
      ensures !found && avatar == None && body == [] && avlink == None
      ensures images == [] && videos == [] && content == None
    {
      this.site := site;
      this.kind := kind;
      this.postId := postId;
      found := false;
      avatar := None;
      body := [];
      avlink := None;
      images := [];
      videos := [];
      content := None;
    }

    /** `get_post`; false where the source raises. */
    method GetPost(page: seq<Entry>) returns (ok: bool)
      modifies this`found, this`avatar, this`body
      ensures var sel := Select(page, site, kind, postId);
        (ok <==> sel.Success?) &&
        (ok ==> found == sel.value.Some?) &&
        (ok && found ==> avatar == sel.value.value.avatar && body == sel.value.value.body)
    {
      var i: Option<nat> := None;
      if site == Era && kind == Thread {
        var j := 0;
        while j < |page|
          invariant j <= |page| && i == None
          invariant forall k :: 0 <= k < j ==> !page[k].isOp
        {
          if page[j].isOp {
            i := Some(j);
            break;
          }
          j := j + 1;
        }
        assert i == FirstOp(page);
      } else if kind == Post {
        i := FirstKey(page, postId);
      } else {
        i := FirstOp(page);
        if i.None? {
          return false;
        }
      }
      if i.Some? {
        found := true;
        avatar := page[i.value].avatar;
        body := page[i.value].body;
      } else {
        found := false;
      }
      return true;
    }

    /** `get_avlink`: the avatar's `src` joined to the site's base URL. */
    method GetAvlink()
      modifies this`avlink
      ensures avatar.Some? ==> avlink == Some(SiteBase(site) + avatar.value)
      ensures avatar.None? ==> avlink == old(avlink)
    {
      if avatar.Some? {
        avlink := Some(SiteBase(site) + avatar.value);
      }
    }

    /** `twitter_embed`; false where the source raises IndexError. */
    method TwitterEmbed() returns (ok: bool)
      modifies this`body
      ensures ok <==> TweetsResolve(old(body))
      ensures ok ==> body == Tweeted(old(body))
    {
      var i := 0;
      while i < |body|
        invariant i <= |body| == |old(body)|
        invariant forall j :: 0 <= j < i ==> old(body)[j].Tweet? ==> Contains(old(body)[j].src, TweetSep)
        invariant forall j :: 0 <= j < i ==> body[j] == TweetNode(old(body)[j])
        invariant forall j :: i <= j < |body| ==> body[j] == old(body)[j]
      {
        var n := body[i];
        if n.Tweet? {
          var id := TweetId(n.src);
          if id.None? {
            return false;
          }
          body := body[i := Text(TweetBase + id.value)];
        }
        i := i + 1;
      }
      assert body == Tweeted(old(body));
      return true;
    }

    /**
     * `format_images`: record the `bb` images, then replace (resetera) or
     * remove (neogaf) them; on neogaf, fill the smilies with the recorded
     * images, false where the source raises IndexError.
     */
    method FormatImages() returns (ok: bool)
      modifies this`body, this`images
      ensures images == old(images) + BbSources(old(body))
      ensures site == Era ==> ok && body == EraImages(old(body))
      ensures site == Gaf ==> (ok <==> Count(WithoutBb(old(body)), IsSmilie) <= |images|)
      ensures site == Gaf && ok ==> body == Filled(WithoutBb(old(body)), images)
    {
      RecordImages();
      if site == Era {
        return true;
      }
      ok := FillSmilies();
    }

    /**
     * The loop of `format_images` over the `bb` images: record each `src`, and
     * replace the image by it (resetera) or remove the image (neogaf).
     */
    method RecordImages()
      modifies this`body, this`images
      ensures images == old(images) + BbSources(old(body))
      ensures site == Era ==> body == EraImages(old(body))
      ensures site == Gaf ==> body == WithoutBb(old(body))
    {
      var body0, images0 := body, images;
      var out: seq<Node> := [];
      for i := 0 to |body0|
        invariant images == images0 + BbSources(body0[..i])
        invariant out == ImagePass(site, body0[..i])
      {
        var n := body0[i];
        ImagePassStep(site, body0, i);
        if IsBb(n) {
          assert images + [n.src] == images0 + (BbSources(body0[..i]) + [n.src]);
          images := images + [n.src];
        }
        out := out + ImageNode(site, n);
      }
      assert body0[..|body0|] == body0;
      ImagePassSites(site, body0);
      body := out;
    }

    /** The neogaf smilie pass: the k-th smilie becomes `images[k] + '\n'`. */
    method FillSmilies() returns (ok: bool)
      modifies this`body
      ensures ok <==> Count(old(body), IsSmilie) <= |images|
      ensures ok ==> body == Filled(old(body), images)
    {
      var body0 := body;
      var out: seq<Node> := [];
      var count := 0;
      for i := 0 to |body0|
        invariant count == Count(body0[..i], IsSmilie) <= |images|
        invariant out == Filled(body0[..i], images)
      {
        var n := body0[i];
        CountStep(body0, i, IsSmilie);
        var next := n;
        if IsSmilie(n) {
          if count >= |images| {
            CountRank(body0, i, IsSmilie);
            return false;
          }
          next := Text(images[count] + "\n");
          count := count + 1;
        }
        FilledStep(body0, images, i);
        out := out + [next];
      }
      assert body0[..|body0|] == body0;
      body := out;
      return true;
    }

    /** `youtube_embed`; false where the source raises TypeError. */
    method YoutubeEmbed() returns (ok: bool)
      modifies this`body, this`videos
      ensures ok <==> PlayersPresent(old(body))
      ensures ok ==> videos == old(videos) + Players(old(body)) && body == Embedded(old(body))
    {
      var body0 := body;
      var out: seq<Node> := [];
      for i := 0 to |body0|
        invariant PlayersPresent(body0[..i])
        invariant videos == old(videos) + Players(body0[..i])
        invariant out == Embedded(body0[..i])
      {
        var n := body0[i];
        if n.Video? && n.player.None? {
          assert !PlayersPresent(body0);
          return false;
        }
        PlayersStep(body0, i);
        if n.Video? {
          assert videos + [n.player.value] == old(videos) + (Players(body0[..i]) + [n.player.value]);
          videos := videos + [n.player.value];
          out := out + [Text(n.player.value)];
        } else {
          out := out + [n];
        }
      }
      assert body0[..|body0|] == body0;
      body := out;
      return true;
    }

    /**
     * `format_quotes`: attribute, fence and drop the parts of each quote;
     * false where `attribute_quote` raises.
     */
    method FormatQuotes() returns (ok: bool)
      modifies this`body
      ensures ok <==> AttributionsLinked(old(body))
      ensures ok ==> body == Quoted(old(body), SiteBase(site))
    {
      var body0 := body;
      var out: seq<Node> := [];
      for i := 0 to |body0|
        invariant AttributionsLinked(body0[..i])
        invariant out == Quoted(body0[..i], SiteBase(site))
      {
        var n := body0[i];
        if n.Attribution? && n.href.None? {
          assert !AttributionsLinked(body0);
          return false;
        }
        LinkedStep(body0, i);
        QuotedStep(body0, SiteBase(site), i);
        out := out + QuoteNode(n, SiteBase(site));
      }
      assert body0[..|body0|] == body0;
      body := out;
      return true;
    }

    /** `mark_down_links`. */
    method MarkDownLinks()
      modifies this`body
      ensures body == MarkedDown(old(body))
    {
      var i := 0;
      while i < |body|
        invariant i <= |body| == |old(body)|
        invariant forall j :: 0 <= j < i ==> body[j] == MarkDown(old(body)[j])
        invariant forall j :: i <= j < |body| ==> body[j] == old(body)[j]
      {
        var n := body[i];
        if n.Anchor? && n.href.Some? && n.text != "" {
          body := body[i := Text("[" + n.text + "](" + n.href.value + ")")];
        }
        i := i + 1;
      }
      assert body == MarkedDown(old(body));
    }

    /** `get_contents`: drop scripts, mark down links, take the text and normalise it. */
    method GetContents()
      modifies this`body, this`content
      ensures body == MarkedDown(WithoutScripts(old(body)))
      ensures content == Some(Contents(old(body)))
    {
      var body0 := body;
      var kept: seq<Node> := [];
      for i := 0 to |body0|
        invariant kept == WithoutScripts(body0[..i])
      {
        ScriptsStep(body0, i);
        if !body0[i].Script? {
          kept := kept + [body0[i]];
        }
      }
      assert body0[..|body0|] == body0;
      body := kept;
      MarkDownLinks();
      content := Some(Normalise(TextOf(body)));
    }

    /** The passes `parse` runs once a post is selected. */
    method ProcessPost() returns (ok: bool)
      requires avlink == None && images == [] && videos == []
      modifies this`body, this`avlink, this`images, this`videos, this`content
      ensures var p := Process(site, avatar, old(body));
        (ok <==> p.Success?) &&
        (ok ==> avlink == p.value.avlink && images == p.value.images &&
                videos == p.value.videos && content == Some(p.value.content))
    {
      GetAvlink();
      ok := TwitterEmbed();
      if !ok {
        return;
      }
      ok := ProcessTweeted();
    }

    /** The passes after `twitter_embed`. */
    method ProcessTweeted() returns (ok: bool)
      requires avatar.Some? ==> avlink == Some(SiteBase(site) + avatar.value)
      requires avatar.None? ==> avlink == None
      requires images == [] && videos == []
      modifies this`body, this`images, this`videos, this`content
      ensures var p := ProcessImages(site, avatar, old(body));
        (ok <==> p.Success?) &&
        (ok ==> avlink == p.value.avlink && images == p.value.images &&
                videos == p.value.videos && content == Some(p.value.content))
    {
      ghost var tweeted := body;
      ok := FormatImages();
      assert [] + BbSources(tweeted) == BbSources(tweeted);
      if !ok {
        return;
      }
      ok := ProcessPictured();
    }

    /** The passes after `format_images`. */
    method ProcessPictured() returns (ok: bool)
      requires avatar.Some? ==> avlink == Some(SiteBase(site) + avatar.value)
      requires avatar.None? ==> avlink == None
      requires videos == []
      modifies this`body, this`videos, this`content
      ensures var p := ProcessVideos(site, avatar, images, old(body));
        (ok <==> p.Success?) &&
        (ok ==> avlink == p.value.avlink && images == p.value.images &&
                videos == p.value.videos && content == Some(p.value.content))
    {
      ghost var pictured := body;
      ok := YoutubeEmbed();
      if !ok {
        return;
      }
      assert [] + Players(pictured) == Players(pictured);
      ok := ProcessEmbedded();
    }

    /** The passes after `youtube_embed`. */
    method ProcessEmbedded() returns (ok: bool)
      requires avatar.Some? ==> avlink == Some(SiteBase(site) + avatar.value)
      requires avatar.None? ==> avlink == None
      modifies this`body, this`content
      ensures var p := ProcessQuotes(site, avatar, images, videos, old(body));
        (ok <==> p.Success?) &&
        (ok ==> avlink == p.value.avlink && images == p.value.images &&
                videos == p.value.videos && content == Some(p.value.content))
    {
      ok := FormatQuotes();
      if !ok {
        return;
      }
      GetContents();
    }

    /**
     * `parse`, on the page fetched for the link (`None` where the fetch did not
     * return a page); false where one of the passes raises.
     */
    method Parse(page: Option<seq<Entry>>) returns (ok: bool)
      requires !found && avlink == None && images == [] && videos == [] && content == None
      modifies this
      ensures page.None? ==> ok && !found && content == None
      ensures page.Some? ==>
        var sel := Select(page.value, site, kind, postId);
        (sel.Failure? ==> !ok) &&
        (sel == Success(None) ==> ok && !found && content == None) &&
        (sel.Success? && sel.value.Some? ==>
          var e := sel.value.value;
          var p := Process(site, e.avatar, e.body);
          found && (ok <==> p.Success?) &&
          (ok ==> avlink == p.value.avlink && images == p.value.images &&
                  videos == p.value.videos && content == Some(p.value.content)))
    {
      if page.None? {
        return true;
      }
      ok := GetPost(page.value);
      if !ok || !found {
        return;
      }
      ok := ProcessPost();
    }
  }
}
