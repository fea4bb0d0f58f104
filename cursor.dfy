/**
 * The caret-tracking edit buffer of the prompt library as an object whose
 * methods update its fields in place. Each method is proved to leave the
 * fields as the matching function of module Editing says.
 */
module Cursors {
  import opened Pointers
  import Rendering
  import Editing

  class Cursor {
    /** The marker drawn at the caret; never changed by the methods. */
    var Pointer: Pointer
    /** The runes the user entered. */
    var Input: seq<char>
    /** The caret sits before the rune at this index. */
    var Position: int
    /** Placeholder mode: the input is a default that the first edit discards. */
    var erase: bool

    /** The caret lies on a rune boundary of the input. */
    predicate Valid()
      reads this
    {
      0 <= Position <= |Input|
    }

    /** The changing fields as a value. */
    function Model(): Editing.State
      reads this
    {
      Editing.State(Input, Position, erase)
    }

    /**
     * A new cursor over `startingInput`. Without a pointer the default block
     * marker is used. In placeholder mode the caret starts at 0, otherwise at
     * the end of the input.
     */
    constructor (startingInput: seq<char>, pointer: Editing.Option<Pointer>, eraseDefault: bool)
      ensures Valid()
      ensures Input == startingInput && erase == eraseDefault
      ensures Position == if eraseDefault then 0 else |startingInput|
      ensures Pointer == if pointer.Some? then pointer.value else DefaultCursor
    {
      var chosen: Pointer := if pointer.None? then DefaultCursor else pointer.value;
      Pointer := chosen;
      Position := |startingInput|;
      Input := startingInput;
      erase := eraseDefault;
      new;
      if eraseDefault {
        Start();
      } else {
        End();
      }
    }

    /** Caret past the last rune. */
    method End()
      modifies this`Position
      ensures Model() == Editing.End(old(Model()))
      ensures Valid() && Position == |Input|
    {
      Place(|Input|);
    }

    /** Caret to the first rune. */
    method Start()
      modifies this`Position
      ensures Model() == Editing.Start(old(Model()))
      ensures Valid() && Position == 0
    {
      Place(0);
    }

    /** Clamp the caret into the input, upper bound first. */
    method CorrectPosition()
      modifies this`Position
      ensures Model() == Editing.Place(old(Model()), old(Position))
      ensures Valid()
    {
      if Position > |Input| {
        Position := |Input|;
      }
      if Position < 0 {
        Position := 0;
      }
    }

    /** The display text: the input with the marker at the caret. */
    function Format(): (r: seq<char>)
      reads this
      requires Position >= 0
      ensures r == Rendering.Format(Input, Position, Pointer)
    {
      var r := Input;
      Rendering.Format(r, Position, Pointer)
    }

    /**
     * The display text of a secret input: every rune replaced by `mask`,
     * then the marker at the caret. Nothing of the input but its length
     * shows.
     */
    method FormatMask(mask: char) returns (s: seq<char>)
      requires Position >= 0
      ensures s == Rendering.Format(Rendering.Mask(|Input|, mask), Position, Pointer)
      ensures forall k :: 0 <= k < |s| ==> s[k] == mask || s[k] in Pointer([mask]) || s[k] in Pointer([])
    {
      var r := new char[|Input|];
      for i := 0 to r.Length
        invariant forall k :: 0 <= k < i ==> r[k] == mask
      {
        r[i] := mask;
      }
      assert r[..] == Rendering.Mask(|Input|, mask);
      s := Rendering.Format(r[..], Position, Pointer);
      Rendering.MaskHidesInput(|Input|, mask, Position, Pointer);
    }

    /** Splice `newInput` in at the caret and put the caret after it. */
    method Update(newInput: seq<char>)
      requires Valid()
      modifies this`Input, this`Position
      ensures Model() == Editing.Update(old(Model()), newInput)
      ensures Valid()
    {
      var a := Input;
      var b := newInput;
      var i := Position;
      a := a[..i] + b + a[i..];
      Input := a;
      Move(|b|);
    }

    /** A copy of the input. */
    function Get(): (r: seq<char>)
      reads this
      ensures r == Model().input
    {
      Input
    }

    /** Install `input` as the whole buffer with the caret at its end. */
    method Replace(input: seq<char>)
      modifies this`Input, this`Position
      ensures Model() == Editing.Replace(old(Model()), input)
      ensures Valid()
    {
      Input := input;
      End();
    }

    /** Put the caret at `position`, clamped into the input. */
    method Place(position: int)
      modifies this`Position
      ensures Model() == Editing.Place(old(Model()), position)
      ensures Valid()
    {
      Position := position;
      CorrectPosition();
    }

    /** Shift the caret by `shift`, clamped into the input. */
    method Move(shift: int)
      modifies this`Position
      ensures Model() == Editing.Move(old(Model()), shift)
      ensures Valid()
    {
      Position := Position + shift;
      CorrectPosition();
    }

    /**
     * Remove the rune before the caret and step the caret back; at the
     * start nothing happens. At the end of the input this truncates, in
     * the middle it splices; both give the same buffer.
     */
    method Backspace()
      requires Valid()
      modifies this`Input, this`Position
      ensures Model() == Editing.Backspace(old(Model()))
      ensures Valid()
    {
      var a := Input;
      var i := Position;
      if i == 0 {
        return;
      }
      if i == |a| {
        Input := a[..i - 1];
        assert Input == a[..i - 1] + a[i..];
      } else {
        Input := a[..i - 1] + a[i..];
      }
      Move(-1);
    }

    /**
     * The line-reader callback: insert the reported line, if any, then act
     * on the key. Returns the input, the caret and whether to go on; the
     * position reported by the line reader is not used.
     */
    method Listen(line: Editing.Option<seq<char>>, pos: int, key: Editing.Key)
      returns (out: seq<char>, p: int, more: bool)
      requires Valid()
      modifies this`Input, this`Position, this`erase
      ensures Editing.Listen(old(Model()), line, key) == Editing.Reply(Model(), more)
      ensures out == Input && p == Position && Valid()
    {
      if line.Some? {
        Update(line.value);
      }
      match key {
        case Empty =>
        case KeyEnter =>
          out, p, more := Get(), Position, false;
          return;
        case KeyBackspace =>
          if erase {
            erase := false;
            Replace([]);
          }
          Backspace();
        case KeyForward =>
          erase := false;
          Move(1);
        case KeyBackward =>
          Move(-1);
        case Other(_) =>
          if erase {
            erase := false;
            Update(Editing.LineText(line));
          }
      }
      out, p, more := Get(), Position, true;
    }
  }
}
