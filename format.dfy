/**
 * Rendering of an input with the caret marker spliced in (the `format`
 * helper of the cursor), and the mask used for secret inputs.
 */
module Rendering {
  import opened Pointers

  /** Where the marker goes: the caret, or the end when the caret is past it. */
  function Anchor(a: seq<char>, position: nat): (q: nat)
    ensures q <= |a| && (position <= |a| ==> q == position)
  {
    if position < |a| then position else |a|
  }

  /** The runes the marker covers: the one under the caret, or none. */
  function Under(a: seq<char>, position: nat): (u: seq<char>)
    ensures position < |a| ==> u == [a[position]]
    ensures position >= |a| ==> u == []
  {
    if position < |a| then a[position..position + 1] else []
  }

  /**
   * The display text of `a` with the caret at `position`. A rune under the
   * caret is replaced by what the pointer makes of it; a caret past the end
   * appends what the pointer makes of nothing. Either way the runes before
   * the anchor come first, untouched, and the runes after what the marker
   * covers come last, untouched.
   */
  function Format(a: seq<char>, position: nat, pointer: Pointer): (r: seq<char>)
    ensures var q, u, m := Anchor(a, position), Under(a, position), pointer(Under(a, position));
      && |r| == |a| - |u| + |m|
      && r[..q] == a[..q]
      && r[q..q + |m|] == m
      && r[q + |m|..] == a[q + |u|..]
  {
    var i := position;
    if i < |a| then
      var b := pointer(a[i..i + 1]);
      a[..i] + b + a[i + 1..]
    else
      var b := pointer([]);
      a + b
  }

  /** `n` copies of the mask rune. */
  function Mask(n: nat, mask: char): (r: seq<char>)
    ensures |r| == n && forall k :: 0 <= k < n ==> r[k] == mask
  {
    seq(n, _ => mask)
  }

  /** The worked cases of the rendering rule. */
  lemma FormatExamples(pointer: Pointer)
    ensures Format("", 0, pointer) == pointer("")
    ensures Format("abc", 1, pointer) == "a" + pointer("b") + "c"
    ensures Format(Mask(3, '*'), 3, pointer) == "***" + pointer("")
  {
    assert Mask(3, '*') == "***";
  }

  /** With the pipe marker, both branches agree: a '|' is inserted at the
      caret and nothing is lost. */
  lemma PipeInsertsBar(a: seq<char>, position: nat)
    requires position <= |a|
    ensures Format(a, position, PipeCursor) == a[..position] + "|" + a[position..]
  {
    if position < |a| {
      assert a[position..] == [a[position]] + a[position + 1..];
    }
  }

  /** With the default marker, the rune under the caret is hidden behind one
      block glyph; past the end, one block glyph is appended. */
  lemma DefaultCoversRune(a: seq<char>, position: nat)
    ensures position < |a| ==>
      var r := Format(a, position, DefaultCursor);
      |r| == |a| && r[position] == Block
      && forall k :: 0 <= k < |a| && k != position ==> r[k] == a[k]
    ensures position >= |a| ==> Format(a, position, DefaultCursor) == a + [Block]
  {
  }

  /** A wrapping marker (such as the reverse-video or the pipe marker) keeps
      every rune of the input: the display is the input with `pre` inserted
      at the anchor and `post` after the covered rune. */
  lemma {:induction false} WrappingKeepsInput(a: seq<char>, position: nat, pointer: Pointer,
                                              pre: seq<char>, post: seq<char>)
    requires Wraps(pointer, pre, post)
    ensures var q, u := Anchor(a, position), Under(a, position);
      Format(a, position, pointer) == a[..q] + pre + u + post + a[q + |u|..]
  {
    var u := Under(a, position);
    assert pointer(u) == pre + u + post;
  }

  /** Removing the escape texts of the reverse-video marker from the display
      gives back the input. */
  lemma BlockCursorRecoversInput(a: seq<char>, position: nat)
    ensures var q, u := Anchor(a, position), Under(a, position);
      var r := Format(a, position, BlockCursor);
      r[..q] + r[q + |InvertOn|..q + |InvertOn| + |u|] + r[q + |InvertOn| + |u| + |InvertOff|..] == a
  {
    StockWrappers();
    WrappingKeepsInput(a, position, BlockCursor, InvertOn, InvertOff);
    var q, u := Anchor(a, position), Under(a, position);
    assert a == a[..q] + u + a[q + |u|..] by {
      if position < |a| { assert a[q..] == u + a[q + 1..]; }
    }
  }

  /**
   * A masked display never shows the input: every rune of it is the mask
   * rune or a rune the pointer draws for the mask rune or for nothing.
   */
  lemma MaskHidesInput(n: nat, mask: char, position: nat, pointer: Pointer)
    ensures var r := Format(Mask(n, mask), position, pointer);
      forall k :: 0 <= k < |r| ==> r[k] == mask || r[k] in pointer([mask]) || r[k] in pointer([])
  {
    var a := Mask(n, mask);
    var r := Format(a, position, pointer);
    var q, u := Anchor(a, position), Under(a, position);
    var m := pointer(u);
    assert u == [mask] || u == [];
    forall k | 0 <= k < |r|
      ensures r[k] == mask || r[k] in pointer([mask]) || r[k] in pointer([])
    {
      if k < q {
        assert r[k] == r[..q][k] == a[k];
      } else if k < q + |m| {
        assert r[k] == r[q..q + |m|][k - q] == m[k - q];
      } else {
        assert r[k] == r[q + |m|..][k - q - |m|] == a[q + |u|..][k - q - |m|];
      }
    }
  }
}
