/**
 * The caret markers of the prompt library. A pointer maps the runes under
 * the caret (one rune, or none when the caret is past the end of the input)
 * to the runes drawn in their place.
 */
module Pointers {

  /** A caret marker: the runes under the caret to the runes shown instead. */
  type Pointer = seq<char> -> seq<char>

  /** The full-block glyph U+2588 drawn by the default marker. */
  const Block: char := '\U{2588}'

  /** Prefix and suffix of the reverse-video marker. Both texts begin with a
      backslash and 'e', as in the Go code, not the ESC control character. */
  const InvertOn: string := "\\e[7m"
  const InvertOff: string := "\\e[0m"

  /** The default marker: one block glyph, whatever was under the caret. */
  function DefaultCursor(ignored: seq<char>): (r: seq<char>)
    ensures |r| == 1 && r[0] == Block
  {
    [Block]
  }

  /** The reverse-video marker: the input between the two escape texts. */
  function BlockCursor(input: seq<char>): (r: seq<char>)
    ensures |r| == |InvertOn| + |input| + |InvertOff|
    ensures r[..|InvertOn|] == InvertOn
    ensures r[|InvertOn|..|InvertOn| + |input|] == input
    ensures r[|InvertOn| + |input|..] == InvertOff
  {
    InvertOn + input + InvertOff
  }

  /** The pipe marker: a '|' in front of the input. */
  function PipeCursor(input: seq<char>): (r: seq<char>)
    ensures |r| == |input| + 1 && r[0] == '|' && r[1..] == input
  {
    var marker := "|";
    marker + input
  }

  /** A pointer that draws `pre`, then the runes under the caret, then `post`. */
  ghost predicate Wraps(pointer: Pointer, pre: seq<char>, post: seq<char>)
  {
    forall x :: pointer(x) == pre + x + post
  }

  /** Both text-preserving stock markers are wrapping markers; the default one
      is not, since it drops the rune it covers. */
  lemma StockWrappers()
    ensures Wraps(BlockCursor, InvertOn, InvertOff)
    ensures Wraps(PipeCursor, "|", [])
    ensures forall pre, post :: !Wraps(DefaultCursor, pre, post)
  {
    forall pre, post ensures !Wraps(DefaultCursor, pre, post) {
      // an input whose wrapped length cannot be the single glyph's
      var x: seq<char> := if |pre| + |post| == 1 then "x" else [];
      assert |DefaultCursor(x)| != |pre + x + post|;
    }
  }
}
