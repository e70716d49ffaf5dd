/**
 * The link classifier of forum_link.py: decides whether a chat message links to
 * a thread or a post on one of the two supported forums, and computes the post id.
 *
 * Regular-expression search against the six configured link patterns is not
 * modelled; it is an oracle `search(k, text)` that returns the span of the
 * leftmost match of pattern `k`, if any. The search for `/\d+/` used by the
 * post-id fallback is modelled exactly (see Strings.SegmentFrom).
 */
module Links {
  import opened Wrappers
  import opened Strings

  datatype Site = Era | Gaf
  datatype Kind = Thread | Post

  /** One entry of the `regs` table: a pattern and the site and kind it stands for. */
  datatype Pattern = Pattern(regex: string, site: Site, kind: Kind)

  /** The substrings whose presence makes a message worth parsing. */
  const BaseLinks: seq<string> := ["neogaf.com", "resetera.com"]

  /** The `regs` table, in insertion order (the order the classifier tries them). */
  const Patterns: seq<Pattern> := [
    Pattern("https://www.resetera.com/threads/.+\\.\\d+", Era, Thread),
    Pattern("https://www.resetera.com/threads/\\d+", Era, Thread),
    Pattern("https://www.resetera.com/threads/.+#post-\\d+", Era, Post),
    Pattern("https://www.resetera.com/posts/\\d+", Era, Post),
    Pattern("https://www.neogaf.com/threads/.+\\.\\d+", Gaf, Thread),
    Pattern("https://www.neogaf.com/threads/.+#post-\\d+", Gaf, Post)
  ]

  const PostFragment: string := "#post-"
  const PostPrefix: string := "post-"

  /** A match: the half-open range `[start, end)` of the searched text. */
  datatype Span = Span(start: nat, end: nat)

  /** Regular-expression search: pattern index and text to the leftmost match, if any. */
  type Searcher = (nat, string) -> Option<Span>

  /** What the search of pattern `k` returns lies inside the text. */
  predicate SpanValid(r: Option<Span>, n: nat)
  {
    r.Some? ==> r.value.start <= r.value.end <= n
  }

  predicate WellFormed(search: Searcher, content: string)
  {
    forall k :: 0 <= k < |Patterns| ==> SpanValid(search(k, content), |content|)
  }

  /** The four attributes the classifier sets; `None` stands for Python's `None`. */
  datatype Fields = Fields(site: Option<Site>, kind: Option<Kind>, url: Option<string>, postId: Option<string>)

  const Unset: Fields := Fields(None, None, None, None)

  /** The only failure: `get_post_id` dereferences a missing `/\d+/` match (AttributeError). */
  datatype LinkError = NoPostId

  /** `check_base`: one of the base links occurs in the message. */
  predicate HasBase(content: string)
  {
    exists i :: 0 <= i < |BaseLinks| && Contains(content, BaseLinks[i])
  }

  /** The post id `get_post_id` computes; `None` where the source raises. */
  function PostIdOf(content: string): (r: Option<string>)
    ensures r.Some? ==> PostPrefix <= r.value
    ensures Contains(content, PostFragment) ==>
      r == Some(PostPrefix + content[IndexOf(content, PostFragment).value + |PostFragment|..])
    ensures !Contains(content, PostFragment) ==>
      (r.Some? <==> exists a: nat :: SegmentAt(content, a))
    ensures !Contains(content, PostFragment) && r.Some? ==>
      r.value == PostPrefix + FirstSegmentDigits(content).value
  {
    match After(content, PostFragment)
    case Some(rest) => Some(PostPrefix + rest)
    case None =>
      match FirstSegmentDigits(content)
      case Some(digits) => Some(PostPrefix + digits)
      case None => None
  }

  /** The fields after pattern `k` matched at `m` and its entry was copied in. */
  function Hit(content: string, k: nat, m: Span, acc: Fields): Fields
    requires k < |Patterns| && m.start <= m.end <= |content|
  {
    acc.(site := Some(Patterns[k].site), kind := Some(Patterns[k].kind), url := Some(content[m.start..m.end]))
  }

  /** The loop of `parse_link` from pattern `k` on, starting from fields `acc`. */
  function Scan(content: string, embeds: bool, search: Searcher, k: nat, acc: Fields): Result<Fields, LinkError>
    requires WellFormed(search, content) && k <= |Patterns|
    decreases |Patterns| - k
  {
    if k == |Patterns| then Success(acc)
    else match search(k, content)
      case None => Scan(content, embeds, search, k + 1, acc)
      case Some(m) =>
        if !embeds then Scan(content, embeds, search, k + 1, acc)
        else
          var acc' := Hit(content, k, m, acc);
          if Patterns[k].kind == Post then
            match PostIdOf(content)
            case Some(id) => Success(acc'.(postId := Some(id)))
            case None => Failure(NoPostId)
          else Scan(content, embeds, search, k + 1, acc')
  }

  /** What constructing a `forum_link` for a message leaves in its four fields. */
  function Classify(content: string, embeds: bool, search: Searcher): (r: Result<Fields, LinkError>)
    requires WellFormed(search, content)
    ensures !HasBase(content) ==> r == Success(Unset)
  {
    if HasBase(content) then Scan(content, embeds, search, 0, Unset) else Success(Unset)
  }

  // ---------------------------------------------------------------------------
  // Properties of the classification

  /** Pattern `k` matches the message. */
  predicate Matches(search: Searcher, content: string, k: nat)
  {
    search(k, content).Some?
  }

  /** Pattern `k` matches the message and is a post pattern. */
  predicate PostMatch(search: Searcher, content: string, k: nat)
    requires k < |Patterns|
  {
    Matches(search, content, k) && Patterns[k].kind == Post
  }

  /** The fields as set by a match of pattern `k`, with post id `id`. */
  function FieldsAt(content: string, search: Searcher, k: nat, id: Option<string>): Fields
    requires WellFormed(search, content) && k < |Patterns| && Matches(search, content, k)
  {
    Hit(content, k, search(k, content).value, Unset).(postId := id)
  }

  lemma {:induction false} ScanWithoutEmbeds(content: string, search: Searcher, k: nat, acc: Fields)
    requires WellFormed(search, content) && k <= |Patterns|
    ensures Scan(content, false, search, k, acc) == Success(acc)
    decreases |Patterns| - k
  {
    if k < |Patterns| {
      ScanWithoutEmbeds(content, search, k + 1, acc);
    }
  }

  /** A message without embeds (a suppressed preview) leaves every field unset, whatever matches. */
  lemma NoEmbedsNoFields(content: string, search: Searcher)
    requires WellFormed(search, content)
    ensures Classify(content, false, search) == Success(Unset)
  {
    ScanWithoutEmbeds(content, search, 0, Unset);
  }

  lemma {:induction false} ScanToFirstPost(content: string, search: Searcher, k: nat, j: nat, acc: Fields)
    requires WellFormed(search, content) && k <= j < |Patterns|
    requires PostMatch(search, content, j)
    requires forall i :: k <= i < j ==> !PostMatch(search, content, i)
    requires acc.postId == None
    ensures Scan(content, true, search, k, acc) ==
      match PostIdOf(content)
      case Some(id) => Success(FieldsAt(content, search, j, Some(id)))
      case None => Failure(NoPostId)
    decreases j - k
  {
    if k < j {
      assert !PostMatch(search, content, k);
      match search(k, content)
      case None => ScanToFirstPost(content, search, k + 1, j, acc);
      case Some(m) => ScanToFirstPost(content, search, k + 1, j, Hit(content, k, m, acc));
    }
  }

  /**
   * The first matching post pattern decides the result, whatever thread
   * patterns matched before it: the loop overwrites the fields and stops there.
   */
  lemma FirstPostMatchWins(content: string, search: Searcher, j: nat)
    requires WellFormed(search, content) && HasBase(content) && j < |Patterns|
    requires PostMatch(search, content, j)
    requires forall i :: 0 <= i < j ==> !PostMatch(search, content, i)
    ensures Classify(content, true, search) ==
      match PostIdOf(content)
      case Some(id) => Success(FieldsAt(content, search, j, Some(id)))
      case None => Failure(NoPostId)
  {
    ScanToFirstPost(content, search, 0, j, Unset);
  }

  lemma {:induction false} ScanNoMatch(content: string, search: Searcher, k: nat, acc: Fields)
    requires WellFormed(search, content) && k <= |Patterns|
    requires forall i :: k <= i < |Patterns| ==> !Matches(search, content, i)
    ensures Scan(content, true, search, k, acc) == Success(acc)
    decreases |Patterns| - k
  {
    if k < |Patterns| {
      assert !Matches(search, content, k);
      ScanNoMatch(content, search, k + 1, acc);
    }
  }

  lemma {:induction false} ScanToLastThread(content: string, search: Searcher, k: nat, j: nat, acc: Fields)
    requires WellFormed(search, content) && k <= j < |Patterns|
    requires forall i :: k <= i < |Patterns| ==> !PostMatch(search, content, i)
    requires Matches(search, content, j)
    requires forall i :: j < i < |Patterns| ==> !Matches(search, content, i)
    requires acc.postId == None
    ensures Scan(content, true, search, k, acc) == Success(FieldsAt(content, search, j, None))
    decreases j - k
  {
    assert !PostMatch(search, content, k);
    if k < j {
      match search(k, content)
      case None => ScanToLastThread(content, search, k + 1, j, acc);
      case Some(m) => ScanToLastThread(content, search, k + 1, j, Hit(content, k, m, acc));
    } else {
      ScanNoMatch(content, search, j + 1, FieldsAt(content, search, j, None));
    }
  }

  /** With no post pattern matching, the last matching thread pattern decides the result. */
  lemma LastThreadMatchWins(content: string, search: Searcher, j: nat)
    requires WellFormed(search, content) && HasBase(content) && j < |Patterns|
    requires forall i :: 0 <= i < |Patterns| ==> !PostMatch(search, content, i)
    requires Matches(search, content, j)
    requires forall i :: j < i < |Patterns| ==> !Matches(search, content, i)
    ensures Classify(content, true, search) == Success(FieldsAt(content, search, j, None))
    ensures Patterns[j].kind == Thread
  {
    ScanToLastThread(content, search, 0, j, Unset);
  }

  /** With no pattern matching at all, the fields stay unset. */
  lemma NoMatchNoFields(content: string, embeds: bool, search: Searcher)
    requires WellFormed(search, content)
    requires forall i :: 0 <= i < |Patterns| ==> !Matches(search, content, i)
    ensures Classify(content, embeds, search) == Success(Unset)
  {
    if embeds { ScanNoMatch(content, search, 0, Unset); } else { ScanWithoutEmbeds(content, search, 0, Unset); }
  }

  /** Url, site and kind are those of a match of pattern `k`. */
  predicate UrlFrom(content: string, search: Searcher, k: nat, f: Fields)
    requires WellFormed(search, content) && k < |Patterns|
  {
    Matches(search, content, k) &&
    var m := search(k, content).value;
    f.url == Some(content[m.start..m.end]) && f.site == Some(Patterns[k].site) && f.kind == Some(Patterns[k].kind)
  }

  /** Invariant of the fields while and after scanning. */
  predicate Consistent(content: string, search: Searcher, f: Fields)
    requires WellFormed(search, content)
  {
    (f.url.Some? ==> exists k :: 0 <= k < |Patterns| && UrlFrom(content, search, k, f)) &&
    (f.url.None? ==> f.site.None? && f.kind.None?) &&
    (f.postId.Some? ==> f.kind == Some(Post) && f.url.Some? && PostPrefix <= f.postId.value)
  }

  lemma {:induction false} ScanConsistent(content: string, embeds: bool, search: Searcher, k: nat, acc: Fields)
    requires WellFormed(search, content) && k <= |Patterns|
    requires Consistent(content, search, acc) && acc.postId == None
    ensures Scan(content, embeds, search, k, acc).Success? ==>
      Consistent(content, search, Scan(content, embeds, search, k, acc).value)
    decreases |Patterns| - k
  {
    if k < |Patterns| {
      match search(k, content)
      case None => ScanConsistent(content, embeds, search, k + 1, acc);
      case Some(m) =>
        if embeds {
          var acc' := Hit(content, k, m, acc);
          assert UrlFrom(content, search, k, acc');
          if Patterns[k].kind == Post {
            match PostIdOf(content)
            case Some(id) => assert UrlFrom(content, search, k, acc'.(postId := Some(id)));
            case None =>
          } else {
            ScanConsistent(content, embeds, search, k + 1, acc');
          }
        } else {
          ScanConsistent(content, embeds, search, k + 1, acc);
        }
    }
  }

  /**
   * The url is exactly the substring some pattern matched, site and kind come
   * from that pattern's entry, and a post id exists only for posts and starts with `post-`.
   */
  lemma ClassifyConsistent(content: string, embeds: bool, search: Searcher)
    requires WellFormed(search, content)
    ensures Classify(content, embeds, search).Success? ==>
      Consistent(content, search, Classify(content, embeds, search).value)
  {
    ScanConsistent(content, embeds, search, 0, Unset);
  }

  /** The start of a bare resetera post link, `https://www.resetera.com/posts/<digits>/`. */
  const EraPosts: string := "https://www.resetera.com/posts/"

  lemma EraPostsChars()
    ensures |EraPosts| == 31 && EraPosts[30] == '/'
    ensures EraPosts[12..24] == "resetera.com"
    ensures EraPosts[7] == '/' && EraPosts[8] == 'w' && EraPosts[25] == 'p'
    ensures forall i :: 0 <= i < 30 && i !in {6, 7, 24} ==> EraPosts[i] != '/'
    ensures forall i :: 0 <= i < 31 ==> EraPosts[i] != '#'
  {
  }

  lemma {:induction false} BarePostLinkHasNoFragment(s: string, d: string)
    requires AllDigits(d) && s == EraPosts + d + "/"
    ensures !Contains(s, PostFragment)
  {
    EraPostsChars();
    forall i: nat | i <= |s| ensures !OccursAt(s, PostFragment, i) {
      if i < |s| {
        assert s[i] != '#' by {
          if i >= 31 && i < |s| - 1 { assert s[i] == d[i - 31]; }
        }
        assert PostFragment[0] == '#';
      }
    }
  }

  lemma {:induction false} BarePostLinkSegment(s: string, d: string)
    requires AllDigits(d) && d != [] && s == EraPosts + d + "/"
    ensures FirstSegmentDigits(s) == Some(d)
  {
    EraPostsChars();
    var e := 31 + |d|;
    assert s[31..e] == d && s[e] == '/';
    DigitRunEndIs(s, 31, e);
    assert SegmentAt(s, 30);
    forall j: nat | j < 30 ensures !SegmentAt(s, j) {
      assert s[j] == EraPosts[j];
      if j in {6, 7, 24} {
        assert s[j + 1] == EraPosts[j + 1];
        assert !IsDigit(s[j + 1]);
      }
    }
    FirstSegmentIs(s, 30);
  }

  /** A bare post link: the post id is `post-` followed by the link's digits. */
  lemma BarePostLinkId(s: string, d: string)
    requires AllDigits(d) && d != [] && s == EraPosts + d + "/"
    ensures PostIdOf(s) == Some(PostPrefix + d)
  {
    BarePostLinkHasNoFragment(s, d);
    BarePostLinkSegment(s, d);
  }

  /**
   * The example of the class documentation, `https://www.resetera.com/posts/6834173/`,
   * for any digits: with embeds, and `https://www.resetera.com/posts/\d+` the only
   * pattern that matches, the link is an era post whose id is `post-` and the digits.
   */
  lemma BarePostLink(search: Searcher, s: string, d: string)
    requires AllDigits(d) && d != [] && s == EraPosts + d + "/"
    requires forall k :: 0 <= k < |Patterns| ==>
      search(k, s) == if k == 3 then Some(Span(0, |s| - 1)) else None
    ensures WellFormed(search, s)
    ensures Classify(s, true, search) ==
      Success(Fields(Some(Era), Some(Post), Some(EraPosts + d), Some(PostPrefix + d)))
  {
    EraPostsChars();
    assert s[12..24] == "resetera.com" == BaseLinks[1];
    assert OccursAt(s, BaseLinks[1], 12);
    BarePostLinkId(s, d);
    assert PostMatch(search, s, 3);
    assert forall i :: 0 <= i < 3 ==> search(i, s) == None;
    FirstPostMatchWins(s, search, 3);
    assert s[0..|s| - 1] == EraPosts + d;
  }

  // ---------------------------------------------------------------------------
  // The class

  class ForumLink {
    const content: string
    const embeds: bool
    const search: Searcher
    var site: Option<Site>
    var kind: Option<Kind>
    var url: Option<string>
    var postId: Option<string>
    /** Set where `get_post_id` raises; the other fields then hold their values at that moment. */
    var raised: bool

    function Current(): Fields
      reads this
    {
      Fields(site, kind, url, postId)
    }

    /** `__init__`: reset the fields, then parse if a base link occurs. */
    constructor (content: string, embeds: bool, search: Searcher)
      requires WellFormed(search, content)
      ensures this.content == content && this.embeds == embeds && this.search == search
      ensures raised <==> Classify(content, embeds, search).Failure?
      ensures !raised ==> Current() == Classify(content, embeds, search).value
    {
      this.content := content;
      this.embeds := embeds;
      this.search := search;
      site, kind, url, postId := None, None, None, None;
      raised := false;
      new;
      var base := CheckBase();
      if base {
        var _ := ParseLink();
      }
    }

    /** `check_base`: the first base link found in the message answers true. */
    method CheckBase() returns (found: bool)
      ensures found <==> HasBase(content)
    {
      var i := 0;
      while i < |BaseLinks|
        invariant 0 <= i <= |BaseLinks|
        invariant forall j :: 0 <= j < i ==> !Contains(content, BaseLinks[j])
      {
        if IndexOf(content, BaseLinks[i]).Some? {
          return true;
        }
        i := i + 1;
      }
      return false;
    }

    /**
     * `parse_link`: try the patterns in order; with embeds, every match
     * overwrites site, kind and url, and a post match computes the post id and
     * stops. Without embeds a match only sets the suppressed flag.
     */
    method ParseLink() returns (suppressed: bool)
      requires WellFormed(search, content) && Current() == Unset && !raised
      modifies this`site, this`kind, this`url, this`postId, this`raised
      ensures raised <==> Scan(content, embeds, search, 0, Unset).Failure?
      ensures !raised ==> Current() == Scan(content, embeds, search, 0, Unset).value
      ensures suppressed <==> !embeds && exists k :: 0 <= k < |Patterns| && Matches(search, content, k)
    {
      suppressed := false;
      var k := 0;
      while k < |Patterns|
        invariant 0 <= k <= |Patterns|
        invariant !raised && Current().postId == None
        invariant Scan(content, embeds, search, 0, Unset) == Scan(content, embeds, search, k, Current())
        invariant suppressed <==> !embeds && exists i :: 0 <= i < k && Matches(search, content, i)
      {
        var m := search(k, content);
        if m.Some? {
          assert Matches(search, content, k);
          if embeds {
            site, kind := Some(Patterns[k].site), Some(Patterns[k].kind);
            url := Some(content[m.value.start..m.value.end]);
            if Patterns[k].kind == Post {
              GetPostId();
              return;
            }
          } else {
            suppressed := true;
          }
        }
        k := k + 1;
      }
    }

    /** `get_post_id`: the text after the first `#post-`, else the digits of the first `/<digits>/`. */
    method GetPostId()
      modifies this`postId, this`raised
      ensures raised <==> PostIdOf(content).None?
      ensures postId == PostIdOf(content)
    {
      var rest := After(content, PostFragment);
      if rest.Some? {
        postId := rest;
      } else {
        var digits := FirstSegmentDigits(content);
        if digits.None? {
          postId, raised := None, true;
          return;
        }
        postId := digits;
      }
      postId := Some(PostPrefix + postId.value);
      raised := false;
    }
  }
}
