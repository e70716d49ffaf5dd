/**
 * The preview of forum_preview.py: breaks the post text into display lines,
 * picks a window of them by size tier, and finalises the text shown in the
 * embed (truncation, balanced code fences, a "Continued" marker).
 */
module Previews {
  import opened Wrappers
  import opened Strings
  import Links

  /** The tunables read from the configuration file. */
  datatype Settings = Settings(maxChars: nat, stdLines: nat, maxLines: nat, lineLength: nat)

  /** The size tier; the source stores the strings 'std' and 'max'. */
  datatype Size = Std | Max

  const ContinuedMarker: string := "\n*Continued...*"
  /** The accent colour of resetera embeds. */
  const EraColor: nat := 8343994

  // ---------------------------------------------------------------------------
  // Breaking text into display lines (`get_lines`)

  /** The text `get_lines` reassembles to: the content, plus a newline if it did not end in one. */
  function Terminated(content: string): string
  {
    if content == "" || content[|content| - 1] == '\n' then content else content + "\n"
  }

  /**
   * One iteration of `get_lines`: the first line with its newline when that
   * fits in `width`, otherwise a hard break of `width - 1` characters; and
   * what is left of the content.
   */
  function Step(content: string, width: nat): (r: (string, string))
    requires width >= 2 && content != ""
    ensures 0 < |r.0| <= width && |r.1| < |content|
  {
    var line := content[..LineEnd(content)] + "\n";
    if |line| > width then (content[..width - 1], content[width - 1..])
    else if LineEnd(content) < |content| then (line, content[|line|..])
    else (line, content[|content|..])
  }

  /** Text before a non-empty tail does not change how the tail is terminated. */
  lemma TerminatedSplit(a: string, b: string)
    requires b != ""
    ensures Terminated(a + b) == a + Terminated(b)
  {
    var s := a + b;
    assert s[|s| - 1] == b[|b| - 1];
    if b[|b| - 1] != '\n' {
      assert s + "\n" == a + (b + "\n");
    }
  }

  /** One iteration of `get_lines` loses no text: the line, then the text of what is left. */
  lemma StepKeepsText(content: string, width: nat)
    requires width >= 2 && content != ""
    ensures Terminated(content) == Step(content, width).0 + Terminated(Step(content, width).1)
  {
    var n := LineEnd(content);
    var line := content[..n] + "\n";
    if |line| > width {
      var rest := content[width - 1..];
      assert content == content[..width - 1] + rest;
      TerminatedSplit(content[..width - 1], rest);
    } else if n < |content| {
      var rest := content[|line|..];
      assert content == line + rest;
      if rest == "" {
        assert content == line;
      } else {
        TerminatedSplit(line, rest);
      }
    } else {
      assert content[..n] == content;
    }
  }

  /** The display lines of `content`, as `get_lines` appends them. */
  function Lines(content: string, width: nat): seq<string>
    requires content == "" || width >= 2
    decreases |content|
  {
    if content == "" then []
    else
      var (line, rest) := Step(content, width);
      [line] + Lines(rest, width)
  }

  lemma AppendAssoc(a: seq<string>, x: string, b: seq<string>)
    ensures a + ([x] + b) == (a + [x]) + b
  {
  }

  /** Concatenation of display lines. */
  function Join(lines: seq<string>): string
  {
    if lines == [] then "" else Join(lines[..|lines| - 1]) + lines[|lines| - 1]
  }

  lemma {:induction false} JoinCons(x: string, rest: seq<string>)
    ensures Join([x] + rest) == x + Join(rest)
    decreases |rest|
  {
    if rest != [] {
      var all := [x] + rest;
      assert all[..|all| - 1] == [x] + rest[..|rest| - 1];
      JoinCons(x, rest[..|rest| - 1]);
    }
  }

  /** Every display line is non-empty and at most `width` long. */
  lemma {:induction false} LinesBounded(content: string, width: nat)
    requires content == "" || width >= 2
    ensures forall l :: l in Lines(content, width) ==> 0 < |l| <= width
    decreases |content|
  {
    if content != "" {
      LinesBounded(Step(content, width).1, width);
    }
  }

  /**
   * Joining the display lines gives back the content; the only character
   * added is one final newline when the content did not end in one.
   */
  lemma {:induction false} LinesJoin(content: string, width: nat)
    requires content == "" || width >= 2
    ensures Join(Lines(content, width)) == Terminated(content)
    decreases |content|
  {
    if content != "" {
      var (line, rest) := Step(content, width);
      StepKeepsText(content, width);
      LinesJoin(rest, width);
      JoinCons(line, Lines(rest, width));
    }
  }

  // ---------------------------------------------------------------------------
  // Windows and the shown text (`no_lines`, `select_lines`, `build_embed`)

  /** How many lines the size tier allows. */
  function Cap(size: Size, cfg: Settings): nat
  {
    if size == Max then cfg.maxLines else cfg.stdLines
  }

  /** `no_lines`: the tier's line count, capped by the number of lines available. */
  function WindowSize(size: Size, available: nat, cfg: Settings): (n: nat)
    ensures n <= available && n <= Cap(size, cfg)
    ensures n == available || n == Cap(size, cfg)
  {
    var no := Cap(size, cfg);
    if no > available then available else no
  }

  /** Python's `str.count('```')`: non-overlapping fences, scanning from the left. */
  function Fences(s: string): nat
  {
    if |s| < 3 then 0
    else if s[..3] == Fence then 1 + Fences(s[3..])
    else Fences(s[1..])
  }

  predicate NoBacktick(s: string)
  {
    forall i :: 0 <= i < |s| ==> s[i] != '`'
  }

  lemma {:induction false} FencesNoBacktick(s: string)
    requires NoBacktick(s)
    ensures Fences(s) == 0
    decreases |s|
  {
    if |s| >= 3 {
      assert s[..3][0] == s[0];
      FencesNoBacktick(s[1..]);
    }
  }

  /** Appending text without backticks adds no fence. */
  lemma {:induction false} FencesAppendPlain(t: string, u: string)
    requires NoBacktick(u)
    ensures Fences(t + u) == Fences(t)
    decreases |t|
  {
    var s := t + u;
    if t == "" {
      assert s == u;
      FencesNoBacktick(u);
    } else if |s| < 3 {
    } else if |t| >= 3 {
      assert s[..3] == t[..3];
      if t[..3] == Fence {
        assert s[3..] == t[3..] + u;
        FencesAppendPlain(t[3..], u);
      } else {
        assert s[1..] == t[1..] + u;
        FencesAppendPlain(t[1..], u);
      }
    } else {
      assert s[..3][|t|] == u[0];
      assert s[..3] != Fence;
      assert s[1..] == t[1..] + u;
      FencesAppendPlain(t[1..], u);
    }
  }

  /** Appending a fence adds exactly one fence, however `t` ends. */
  lemma {:induction false} FencesAppendFence(t: string)
    ensures Fences(t + Fence) == Fences(t) + 1
    decreases |t|
  {
    var s := t + Fence;
    if |t| >= 3 {
      assert s[..3] == t[..3];
      if t[..3] == Fence {
        assert s[3..] == t[3..] + Fence;
        FencesAppendFence(t[3..]);
      } else {
        assert s[1..] == t[1..] + Fence;
        FencesAppendFence(t[1..]);
      }
    } else if s[..3] == Fence {
      assert Fences(s[3..]) == 0;
    } else {
      assert t != "";
      assert s[1..] == t[1..] + Fence;
      FencesAppendFence(t[1..]);
    }
  }

  /**
   * The text of `build_embed` before the marker: the window cut to `maxChars`,
   * with one closing fence added when the cut leaves an odd number of fences.
   */
  function Finalize(window: string, maxChars: nat): (r: string)
    ensures Fences(r) % 2 == 0
    ensures |r| <= maxChars + |Fence|
    ensures var k := if |window| > maxChars then maxChars else |window|;
      k <= |r| && r[..k] == window[..k] && (r[k..] == "" || r[k..] == Fence)
  {
    var cut := if |window| > maxChars then window[..maxChars] else window;
    if Fences(cut) % 2 != 0 then
      FencesAppendFence(cut);
      cut + Fence
    else cut
  }

  /** The description `build_embed` leaves in `embed_text` for the given lines and size. */
  function EmbedText(lines: seq<string>, size: Size, cfg: Settings): (r: string)
    ensures Fences(r) % 2 == 0
    ensures |r| <= cfg.maxChars + |Fence| + |ContinuedMarker|
    ensures var n := WindowSize(size, |lines|, cfg);
      n < |lines| ==> r == Finalize(Join(lines[..n]), cfg.maxChars) + ContinuedMarker
    ensures var n := WindowSize(size, |lines|, cfg);
      n == |lines| ==> r == Finalize(Join(lines), cfg.maxChars)
  {
    var n := WindowSize(size, |lines|, cfg);
    var shown := Finalize(Join(lines[..n]), cfg.maxChars);
    assert lines[..|lines|] == lines;
    if |lines| > n then
      assert NoBacktick(ContinuedMarker);
      FencesAppendPlain(shown, ContinuedMarker);
      shown + ContinuedMarker
    else shown
  }

  /** Without lines (no post was found) the shown text is empty. */
  lemma EmbedTextNoLines(size: Size, cfg: Settings)
    ensures EmbedText([], size, cfg) == ""
  {
    assert Join([]) == "";
    assert Finalize("", cfg.maxChars) == "";
  }

  /** The accent colour: resetera's, else the platform default. */
  function ColorFor(site: Option<Links.Site>): Option<nat>
  {
    if site == Some(Links.Era) then Some(EraColor) else None
  }

  // ---------------------------------------------------------------------------
  // The class

  class ForumPreview {
    const cfg: Settings
    /** The site of the parsed link, if any. */
    const site: Option<Links.Site>
    /** The images the parser recorded, in document order. */
    const images: seq<string>
    var size: Size
    var lines: seq<string>
    var embedText: string
    var color: Option<nat>
    var image: Option<string>
    /** The bot's posted message has been deleted. */
    var deleted: bool

    /** The shown text is always the one `build_embed` computes from lines and size. */
    ghost predicate Valid()
      reads this
    {
      embedText == EmbedText(lines, size, cfg)
    }

    /**
     * `__init__` followed by `get_lines` and `build_embed` when a post was found;
     * `content` is the normalised post text, `None` when no post was found.
     */
    constructor (content: Option<string>, site: Option<Links.Site>, images: seq<string>, cfg: Settings, size: Size)
      requires content.None? || content.value == "" || cfg.lineLength >= 2
      ensures Valid()
      ensures this.cfg == cfg && this.site == site && this.images == images && this.size == size && !deleted
      ensures content.Some? ==> lines == Lines(content.value, cfg.lineLength)
      ensures content.None? ==> lines == [] && color == None && image == None
      ensures content.Some? ==> color == ColorFor(site) && image == (if images == [] then None else Some(images[0]))
    {
      this.cfg := cfg;
      this.site := site;
      this.images := images;
      this.size := size;
      lines := [];
      embedText := "";
      color, image := None, None;
      deleted := false;
      new;
      if content.Some? {
        ghost var produced := Lines(content.value, cfg.lineLength);
        assert [] + produced == produced;
        GetLines(content.value);
        BuildEmbed();
      } else {
        EmbedTextNoLines(size, cfg);
        assert lines == [] && embedText == "";
      }
    }

    /** `get_lines`: append the display lines of `content` to `lines`. */
    method GetLines(content: string)
      requires content == "" || cfg.lineLength >= 2
      modifies this`lines
      ensures lines == old(lines) + Lines(content, cfg.lineLength)
    {
      var width := cfg.lineLength;
      var rest := content;
      while rest != ""
        invariant old(lines) + Lines(content, width) == lines + Lines(rest, width)
        decreases |rest|
      {
        ghost var before := rest;
        var newLine := rest[..LineEnd(rest)] + "\n";
        if |newLine| > width {
          newLine := rest[..width - 1];
          rest := rest[|newLine|..];
        } else {
          rest := rest[if |newLine| <= |rest| then |newLine| else |rest|..];
        }
        assert (newLine, rest) == Step(before, width);
        assert Lines(before, width) == [newLine] + Lines(rest, width);
        AppendAssoc(lines, newLine, Lines(rest, width));
        lines := lines + [newLine];
      }
      assert Lines(rest, width) == [];
      assert lines + [] == lines;
    }

    /** `no_lines`. */
    function NoLines(): nat
      reads this
    {
      WindowSize(size, |lines|, cfg)
    }

    /** `select_lines`: the shown text becomes the first `no_lines()` lines, joined. */
    method SelectLines()
      modifies this`embedText
      ensures embedText == Join(lines[..NoLines()])
    {
      embedText := "";
      var n := NoLines();
      for i := 0 to n
        invariant embedText == Join(lines[..i])
      {
        assert lines[..i + 1][..i] == lines[..i];
        embedText := embedText + lines[i];
      }
    }

    /** The text, colour and image part of `build_embed`. */
    method BuildEmbed()
      modifies this`embedText, this`color, this`image
      ensures embedText == EmbedText(lines, size, cfg)
      ensures color == ColorFor(site)
      ensures image == if images == [] then None else Some(images[0])
    {
      SelectLines();
      if |embedText| > cfg.maxChars {
        embedText := embedText[..cfg.maxChars];
      }
      if Fences(embedText) % 2 != 0 {
        embedText := embedText + Fence;
      }
      if |lines| > NoLines() {
        embedText := embedText + ContinuedMarker;
      }
      image := if images != [] then Some(images[0]) else None;
      color := if site == Some(Links.Era) then Some(EraColor) else None;
    }

    /** `update_size`: a new tier rebuilds the text; the current tier changes nothing. */
    method UpdateSize(s: Size)
      requires Valid()
      modifies this`size, this`embedText, this`color, this`image
      ensures Valid() && size == s
      ensures old(size) == s ==> unchanged(this)
      ensures old(size) != s ==> color == ColorFor(site) && image == (if images == [] then None else Some(images[0]))
    {
      if size != s {
        size := s;
        BuildEmbed();
      }
    }
  }
}
