/**
 * The reaction controls of UI.py: the table from element names to emoji and
 * actions, the permission check on a reaction, and the poll loop that
 * dispatches reactions to the resize and close handlers of a preview.
 *
 * The platform's event stream is a finite sequence of reactions; the 24-hour
 * timeout of the source is the end of that sequence.
 */
module Reactions {
  import opened Wrappers
  import opened Previews

  datatype Action = Maximize | Minimize | Close

  /** One entry of the `elements` dict: an emoji and the handler it triggers. */
  datatype Element = Element(emoji: string, action: Action)

  const PlusEmoji: string := "\U{2795}"
  const MinusEmoji: string := "\U{2796}"
  const CrossEmoji: string := "\U{2716}"

  /** The default layout: `('max', 'min', 'close')`. */
  const DefaultNames: seq<string> := ["max", "min", "close"]

  /** `standard_elements`: the element for a name, `None` where the dict raises KeyError. */
  function Standard(name: string): Option<Element>
  {
    if name == "max" then Some(Element(PlusEmoji, Maximize))
    else if name == "min" then Some(Element(MinusEmoji, Minimize))
    else if name == "close" then Some(Element(CrossEmoji, Close))
    else None
  }

  /** The keys of the `elements` dict, in insertion order. */
  function Emojis(es: seq<Element>): seq<string>
  {
    if es == [] then [] else [es[0].emoji] + Emojis(es[1..])
  }

  predicate Distinct(ks: seq<string>)
  {
    forall i, j :: 0 <= i < j < |ks| ==> ks[i] != ks[j]
  }

  /** Dict lookup `elements[emoji]`; `None` where the dict raises KeyError. */
  function Lookup(es: seq<Element>, x: string): (r: Option<Action>)
    ensures r.Some? <==> x in Emojis(es)
    ensures r.Some? ==> Element(x, r.value) in es
  {
    if es == [] then None
    else if es[0].emoji == x then Some(es[0].action)
    else Lookup(es[1..], x)
  }

  /** Dict assignment `elements[e.emoji] = e.action`: replace in place, or append. */
  function Put(es: seq<Element>, e: Element): (r: seq<Element>)
    ensures Lookup(r, e.emoji) == Some(e.action)
    ensures forall x :: x != e.emoji ==> Lookup(r, x) == Lookup(es, x)
  {
    if es == [] then [e]
    else if es[0].emoji == e.emoji then [e] + es[1..]
    else
      var rest := Put(es[1..], e);
      var r := [es[0]] + rest;
      assert r[0] == es[0] && r[1..] == rest;
      r
  }

  /** Assigning to an existing key keeps the keys and their order. */
  lemma {:induction false} PutExisting(es: seq<Element>, e: Element)
    requires e.emoji in Emojis(es)
    ensures Emojis(Put(es, e)) == Emojis(es)
    decreases |es|
  {
    assert Emojis(es) == [es[0].emoji] + Emojis(es[1..]);
    if es[0].emoji == e.emoji {
      var r := [e] + es[1..];
      assert r[1..] == es[1..];
    } else {
      PutExisting(es[1..], e);
      var rest := Put(es[1..], e);
      assert ([es[0]] + rest)[1..] == rest;
    }
  }

  /** Assigning to a new key appends it to the keys. */
  lemma {:induction false} PutNew(es: seq<Element>, e: Element)
    requires e.emoji !in Emojis(es)
    ensures Emojis(Put(es, e)) == Emojis(es) + [e.emoji]
    decreases |es|
  {
    if es == [] {
      assert Emojis([e]) == [e.emoji] + Emojis([e][1..]);
    } else {
      assert Emojis(es) == [es[0].emoji] + Emojis(es[1..]);
      PutNew(es[1..], e);
      var rest := Put(es[1..], e);
      assert ([es[0]] + rest)[1..] == rest;
      assert [es[0].emoji] + (Emojis(es[1..]) + [e.emoji]) == Emojis(es) + [e.emoji];
    }
  }

  /** Dict assignment keeps the key order: an existing key keeps its place, a new key goes last. */
  lemma PutEmojis(es: seq<Element>, e: Element)
    ensures e.emoji in Emojis(es) ==> Emojis(Put(es, e)) == Emojis(es)
    ensures e.emoji !in Emojis(es) ==> Emojis(Put(es, e)) == Emojis(es) + [e.emoji]
  {
    if e.emoji in Emojis(es) { PutExisting(es, e); } else { PutNew(es, e); }
  }

  /** Every name is a standard one. */
  predicate AllStandard(names: seq<string>)
  {
    forall i :: 0 <= i < |names| ==> Standard(names[i]).Some?
  }

  /**
   * `set_elements` on a sequence of names: the dict it builds, or the name
   * that raised KeyError. It succeeds exactly when every name is standard.
   */
  function Layout(names: seq<string>): (r: Result<seq<Element>, string>)
    ensures r.Success? <==> AllStandard(names)
  {
    if names == [] then Success([])
    else
      var init := names[..|names| - 1];
      assert forall i :: 0 <= i < |init| ==> init[i] == names[i];
      match Layout(init)
      case Failure(bad) => Failure(bad)
      case Success(es) =>
        match Standard(names[|names| - 1])
        case None => Failure(names[|names| - 1])
        case Some(e) => Success(Put(es, e))
  }

  /** The emoji of the standard names among `names`. */
  function NameEmojis(names: seq<string>): set<string>
  {
    set i | 0 <= i < |names| && Standard(names[i]).Some? :: Standard(names[i]).value.emoji
  }

  /** The KeyError names the first name that is not standard. */
  lemma {:induction false} LayoutFailure(names: seq<string>)
    requires Layout(names).Failure?
    ensures exists j :: (0 <= j < |names| && Layout(names).error == names[j] &&
                         Standard(names[j]).None? && AllStandard(names[..j]))
    decreases |names|
  {
    var init := names[..|names| - 1];
    if Layout(init).Failure? {
      LayoutFailure(init);
      var j :| 0 <= j < |init| && Layout(init).error == init[j] && Standard(init[j]).None? && AllStandard(init[..j]);
      assert names[..j] == init[..j];
    } else {
      assert names[..|names| - 1] == init;
    }
  }

  /** Each element the layout builds has a distinct emoji. */
  lemma {:induction false} LayoutDistinct(names: seq<string>)
    requires AllStandard(names)
    ensures Distinct(Emojis(Layout(names).value))
    decreases |names|
  {
    if names != [] {
      var init := names[..|names| - 1];
      assert AllStandard(init) by {
        assert forall i :: 0 <= i < |init| ==> init[i] == names[i];
      }
      LayoutDistinct(init);
      var es := Layout(init).value;
      var e := Standard(names[|names| - 1]).value;
      var r := Put(es, e);
      PutEmojis(es, e);
      if e.emoji !in Emojis(es) {
        forall i, j | 0 <= i < j < |Emojis(r)| ensures Emojis(r)[i] != Emojis(r)[j] {
          if j == |Emojis(es)| { assert Emojis(r)[i] == Emojis(es)[i]; }
        }
      }
    }
  }

  /** One step of the layout: the dict of all but the last name, with the last one put in. */
  lemma LayoutStep(names: seq<string>)
    requires names != [] && AllStandard(names)
    ensures AllStandard(names[..|names| - 1])
    ensures Layout(names).value == Put(Layout(names[..|names| - 1]).value, Standard(names[|names| - 1]).value)
  {
    var init := names[..|names| - 1];
    assert forall i :: 0 <= i < |init| ==> init[i] == names[i];
  }

  /** One more standard name adds its emoji to the emoji of the names. */
  lemma NameEmojisStep(names: seq<string>)
    requires names != [] && Standard(names[|names| - 1]).Some?
    ensures NameEmojis(names) == NameEmojis(names[..|names| - 1]) + {Standard(names[|names| - 1]).value.emoji}
  {
    var init := names[..|names| - 1];
    var e := Standard(names[|names| - 1]).value;
    forall x | x in NameEmojis(names) ensures x in NameEmojis(init) + {e.emoji} {
      var i :| 0 <= i < |names| && Standard(names[i]).Some? && Standard(names[i]).value.emoji == x;
      if i < |names| - 1 {
        assert init[i] == names[i];
      }
    }
    forall x | x in NameEmojis(init) ensures x in NameEmojis(names) {
      var i :| 0 <= i < |init| && Standard(init[i]).Some? && Standard(init[i]).value.emoji == x;
      assert init[i] == names[i];
    }
    assert e.emoji in NameEmojis(names);
  }

  /** Putting an element adds its emoji to the keys, whether or not it was one already. */
  lemma PutKeys(es: seq<Element>, e: Element)
    ensures (set x | x in Emojis(Put(es, e))) == (set x | x in Emojis(es)) + {e.emoji}
  {
    PutEmojis(es, e);
  }

  /** The keys of the layout are exactly the emoji of the listed names. */
  lemma {:induction false} LayoutEmojis(names: seq<string>)
    requires AllStandard(names)
    ensures (set x | x in Emojis(Layout(names).value)) == NameEmojis(names)
    decreases |names|
  {
    if names != [] {
      var init := names[..|names| - 1];
      LayoutStep(names);
      LayoutEmojis(init);
      NameEmojisStep(names);
      PutKeys(Layout(init).value, Standard(names[|names| - 1]).value);
    }
  }

  /** Every listed name's emoji is bound to that name's action. */
  lemma {:induction false} LayoutBindings(names: seq<string>, i: nat)
    requires AllStandard(names) && i < |names|
    ensures Lookup(Layout(names).value, Standard(names[i]).value.emoji) == Some(Standard(names[i]).value.action)
    decreases |names|
  {
    var init := names[..|names| - 1];
    LayoutStep(names);
    var e := Standard(names[|names| - 1]).value;
    var d := Standard(names[i]).value;
    var r := Put(Layout(init).value, e);
    if i == |names| - 1 {
      assert Lookup(r, e.emoji) == Some(e.action);
    } else if d.emoji == e.emoji {
      StandardInjective(names[i], names[|names| - 1]);
      assert Lookup(r, e.emoji) == Some(e.action);
    } else {
      assert init[i] == names[i];
      LayoutBindings(init, i);
      assert Lookup(r, d.emoji) == Lookup(Layout(init).value, d.emoji);
    }
  }

  /** Distinct names have distinct emoji. */
  lemma StandardInjective(a: string, b: string)
    requires Standard(a).Some? && Standard(b).Some?
    requires Standard(a).value.emoji == Standard(b).value.emoji
    ensures Standard(a) == Standard(b)
  {
    EmojisDiffer();
  }

  lemma EmojisDiffer()
    ensures PlusEmoji != MinusEmoji && PlusEmoji != CrossEmoji && MinusEmoji != CrossEmoji
  {
    assert PlusEmoji[0] != MinusEmoji[0] && PlusEmoji[0] != CrossEmoji[0] && MinusEmoji[0] != CrossEmoji[0];
  }

  lemma StandardDefaults()
    ensures Standard("max") == Some(Element(PlusEmoji, Maximize))
    ensures Standard("min") == Some(Element(MinusEmoji, Minimize))
    ensures Standard("close") == Some(Element(CrossEmoji, Close))
  {
    assert "min"[1] != "max"[1];
    assert |"close"| != |"max"| && |"close"| != |"min"|;
  }

  /** The layout of three standard names puts their elements in order. */
  lemma LayoutOfThree(names: seq<string>, a: Element, b: Element, c: Element)
    requires |names| == 3
    requires Standard(names[0]) == Some(a) && Standard(names[1]) == Some(b) && Standard(names[2]) == Some(c)
    ensures Layout(names) == Success(Put(Put(Put([], a), b), c))
  {
    assert AllStandard(names);
    LayoutStep(names);
    var two := names[..2];
    assert two[0] == names[0] && two[1] == names[1];
    LayoutStep(two);
    var one := two[..1];
    assert one[0] == names[0];
    LayoutStep(one);
    assert one[..0] == [];
  }

  /** Putting three elements with distinct emoji into an empty dict keeps them in order. */
  lemma PutThree(a: Element, b: Element, c: Element)
    requires a.emoji != b.emoji && a.emoji != c.emoji && b.emoji != c.emoji
    ensures Put(Put(Put([], a), b), c) == [a, b, c]
  {
    assert Put([], a) == [a];
    assert [a][1..] == [];
    assert Put([a], b) == [a, b];
    assert [a, b][1..] == [b] && [b][1..] == [];
    assert Put([b], c) == [b, c];
  }

  /** The default layout binds plus, minus and cross to maximize, minimize and close, in that order. */
  lemma DefaultLayout()
    ensures Layout(DefaultNames) ==
      Success([Element(PlusEmoji, Maximize), Element(MinusEmoji, Minimize), Element(CrossEmoji, Close)])
  {
    StandardDefaults();
    EmojisDiffer();
    var a, b, c := Element(PlusEmoji, Maximize), Element(MinusEmoji, Minimize), Element(CrossEmoji, Close);
    LayoutOfThree(DefaultNames, a, b, c);
    PutThree(a, b, c);
  }

  // ---------------------------------------------------------------------------
  // Permission

  /** The reacting user; `isAdmin` is the administrator flag in the preview's channel. */
  datatype User = User(id: nat, isAdmin: bool, isBot: bool)

  /** A reaction-added event: the message reacted to, the emoji, the user. */
  datatype Reaction = Reaction(messageId: nat, emoji: string, user: User)

  /** `perm_check`; the bot test applies to the administrator branch only. */
  predicate Permitted(r: Reaction, authorId: nat, botMessageId: nat)
  {
    (r.user.id == authorId || (r.user.isAdmin && !r.user.isBot)) && r.messageId == botMessageId
  }

  /** The cases of `perm_check`. */
  lemma PermissionCases(r: Reaction, authorId: nat, botMessageId: nat)
    ensures r.messageId != botMessageId ==> !Permitted(r, authorId, botMessageId)
    ensures r.messageId == botMessageId && r.user.id == authorId ==> Permitted(r, authorId, botMessageId)
    ensures r.messageId == botMessageId && r.user.isAdmin && !r.user.isBot ==> Permitted(r, authorId, botMessageId)
    ensures r.user.id != authorId && (!r.user.isAdmin || r.user.isBot) ==> !Permitted(r, authorId, botMessageId)
  {
  }

  // ---------------------------------------------------------------------------
  // The poll loop

  /** What the poll loop consults: the elements, the requester and the bot's message. */
  datatype Surface = Surface(elements: seq<Element>, authorId: nat, botMessageId: nat)

  /** Where the loop stopped (the index of the closing reaction), and the size it left. */
  datatype Outcome = Outcome(stoppedAt: Option<nat>, size: Size)

  /** The reaction at `k` passes the check and is bound to `a`. */
  predicate Triggers(c: Surface, events: seq<Reaction>, k: nat, a: Action)
    requires k < |events|
  {
    Permitted(events[k], c.authorId, c.botMessageId) && Lookup(c.elements, events[k].emoji) == Some(a)
  }

  predicate ClosesAt(c: Surface, events: seq<Reaction>, k: nat)
    requires k < |events|
  {
    Triggers(c, events, k, Close)
  }

  predicate ResizesAt(c: Surface, events: seq<Reaction>, k: nat)
    requires k < |events|
  {
    Triggers(c, events, k, Minimize) || Triggers(c, events, k, Maximize)
  }

  /** The size tier a resize handler sets. */
  function Target(a: Action): Size
  {
    if a == Maximize then Max else Std
  }

  /** The poll loop from reaction `i` on, with the preview at `size`. */
  function Run(c: Surface, events: seq<Reaction>, i: nat, size: Size): Outcome
    requires i <= |events|
    decreases |events| - i
  {
    if i == |events| then Outcome(None, size)
    else if !Permitted(events[i], c.authorId, c.botMessageId) then Run(c, events, i + 1, size)
    else
      match Lookup(c.elements, events[i].emoji)
      case None => Run(c, events, i + 1, size)
      case Some(Close) => Outcome(Some(i), size)
      case Some(a) => Run(c, events, i + 1, Target(a))
  }

  /** Where the loop stops: the first closing reaction, or the end. */
  function StopAt(c: Surface, events: seq<Reaction>, m: nat): Option<nat>
  {
    if m < |events| then Some(m) else None
  }

  /** `m` is the first closing reaction, or the end of the events if none closes. */
  predicate FirstClose(c: Surface, events: seq<Reaction>, m: nat)
  {
    m <= |events| && (m < |events| ==> ClosesAt(c, events, m)) &&
    forall k :: 0 <= k < m ==> !ClosesAt(c, events, k)
  }

  lemma {:induction false} RunNoResize(c: Surface, events: seq<Reaction>, i: nat, size: Size, m: nat)
    requires i <= m && FirstClose(c, events, m)
    requires forall k :: i <= k < m ==> !ResizesAt(c, events, k)
    ensures Run(c, events, i, size) == Outcome(StopAt(c, events, m), size)
    decreases m - i
  {
    if i < m {
      assert !ClosesAt(c, events, i) && !ResizesAt(c, events, i);
      RunNoResize(c, events, i + 1, size, m);
    } else if m < |events| {
      assert ClosesAt(c, events, m);
    }
  }

  lemma {:induction false} RunLastResize(c: Surface, events: seq<Reaction>, i: nat, size: Size, j: nat, a: Action, m: nat)
    requires i <= j < m && FirstClose(c, events, m)
    requires a != Close && Triggers(c, events, j, a)
    requires forall k :: j < k < m ==> !ResizesAt(c, events, k)
    ensures Run(c, events, i, size) == Outcome(StopAt(c, events, m), Target(a))
    decreases j - i
  {
    assert !ClosesAt(c, events, i);
    if i < j {
      match Lookup(c.elements, events[i].emoji)
      case None => RunLastResize(c, events, i + 1, size, j, a, m);
      case Some(b) => RunLastResize(c, events, i + 1, if Permitted(events[i], c.authorId, c.botMessageId) then Target(b) else size, j, a, m);
    } else {
      RunNoResize(c, events, j + 1, Target(a), m);
    }
  }

  /**
   * Without a resize before the first closing reaction, the loop stops there
   * (or runs out of events) and leaves the size as it was: reactions that fail
   * the check or whose emoji is not an element change nothing.
   */
  lemma PollWithoutResize(c: Surface, events: seq<Reaction>, size: Size, m: nat)
    requires FirstClose(c, events, m)
    requires forall k :: 0 <= k < m ==> !ResizesAt(c, events, k)
    ensures Run(c, events, 0, size) == Outcome(StopAt(c, events, m), size)
  {
    RunNoResize(c, events, 0, size, m);
  }

  /**
   * The loop stops at the first closing reaction (or runs out of events), and
   * the size is the one set by the last resize before that point.
   */
  lemma PollLastResize(c: Surface, events: seq<Reaction>, size: Size, j: nat, a: Action, m: nat)
    requires j < m && FirstClose(c, events, m)
    requires a != Close && Triggers(c, events, j, a)
    requires forall k :: j < k < m ==> !ResizesAt(c, events, k)
    ensures Run(c, events, 0, size) == Outcome(StopAt(c, events, m), Target(a))
  {
    RunLastResize(c, events, 0, size, j, a, m);
  }

  // ---------------------------------------------------------------------------
  // The class

  class UI {
    /** The preview this UI controls; the source holds it through a weak reference. */
    const parent: ForumPreview
    /** The id of the user whose message triggered the preview. */
    const authorId: nat
    /** The id of the preview message the bot posted. */
    const botMessageId: nat
    var elements: seq<Element>

    function Controls(): Surface
      reads this
    {
      Surface(elements, authorId, botMessageId)
    }

    /** `__init__`; a name outside the table raises KeyError and no UI exists. */
    constructor (parent: ForumPreview, authorId: nat, botMessageId: nat, names: seq<string>)
      requires AllStandard(names)
      ensures this.parent == parent && this.authorId == authorId && this.botMessageId == botMessageId
      ensures elements == Layout(names).value
    {
      this.parent := parent;
      this.authorId := authorId;
      this.botMessageId := botMessageId;
      elements := [];
      new;
      var _ := SetElements(names);
    }

    /** `set_elements`: rebuild the dict from the names, in order; false where the source raises KeyError. */
    method SetElements(names: seq<string>) returns (ok: bool)
      modifies this`elements
      ensures ok <==> Layout(names).Success?
      ensures ok ==> elements == Layout(names).value
      ensures !ok ==> exists j :: 0 <= j < |names| && Standard(names[j]).None? && Layout(names[..j]) == Success(elements)
    {
      elements := [];
      for i := 0 to |names|
        invariant Layout(names[..i]) == Success(elements)
      {
        var e := Standard(names[i]);
        assert names[..i + 1][..i] == names[..i];
        if e.None? {
          assert !AllStandard(names);
          return false;
        }
        elements := Put(elements, e.value);
      }
      assert names[..|names|] == names;
      return true;
    }

    /** `build`: one reaction per element, in element order. */
    method Build() returns (reactions: seq<string>)
      ensures reactions == Emojis(elements)
    {
      reactions := [];
      var i := 0;
      while i < |elements|
        invariant 0 <= i <= |elements|
        invariant reactions + Emojis(elements[i..]) == Emojis(elements)
      {
        assert elements[i..][1..] == elements[i + 1..];
        reactions := reactions + [elements[i].emoji];
        i := i + 1;
      }
    }

    /** `close`: delete the preview message and end the poll loop. */
    method Close() returns (keepOpen: bool)
      modifies parent`deleted
      ensures parent.deleted && !keepOpen
    {
      parent.deleted := true;
      keepOpen := false;
    }

    /** `minimize`: the standard size; already standard, nothing changes. */
    method Minimize() returns (keepOpen: bool)
      requires parent.Valid()
      modifies parent`size, parent`embedText, parent`color, parent`image
      ensures keepOpen && parent.Valid() && parent.size == Std
      ensures old(parent.size) == Std ==> unchanged(parent)
    {
      parent.UpdateSize(Std);
      keepOpen := true;
    }

    /** `maximize`: the maximal size; already maximal, nothing changes. */
    method Maximize() returns (keepOpen: bool)
      requires parent.Valid()
      modifies parent`size, parent`embedText, parent`color, parent`image
      ensures keepOpen && parent.Valid() && parent.size == Max
      ensures old(parent.size) == Max ==> unchanged(parent)
    {
      parent.UpdateSize(Max);
      keepOpen := true;
    }

    /**
     * `poll`: for each permitted reaction, run the handler of its emoji,
     * ignoring emoji that are not elements, until a handler says to stop.
     */
    method Poll(events: seq<Reaction>) returns (stoppedAt: Option<nat>)
      requires parent.Valid() && !parent.deleted
      modifies parent
      ensures Run(Controls(), events, 0, old(parent.size)) == Outcome(stoppedAt, parent.size)
      ensures parent.Valid() && parent.lines == old(parent.lines)
      ensures parent.deleted <==> stoppedAt.Some?
    {
      var i := 0;
      while i < |events|
        invariant i <= |events|
        invariant parent.Valid() && !parent.deleted && parent.lines == old(parent.lines)
        invariant Run(Controls(), events, 0, old(parent.size)) == Run(Controls(), events, i, parent.size)
      {
        var r := events[i];
        if Permitted(r, authorId, botMessageId) {
          var handler := Lookup(elements, r.emoji);
          if handler.Some? {
            var keepOpen;
            match handler.value {
              case Close => keepOpen := Close();
              case Minimize => keepOpen := Minimize();
              case Maximize => keepOpen := Maximize();
            }
            if !keepOpen {
              return Some(i);
            }
          }
        }
        i := i + 1;
      }
      return None;
    }
  }

}
