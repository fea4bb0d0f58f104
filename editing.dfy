/**
 * The cursor's editing behaviour on values: the state the cursor keeps
 * (input runes, caret position, erase flag) and what each operation makes
 * of it. The `Cursor` class in module Cursors is proved to follow these
 * functions step by step.
 */
module Editing {

  datatype Option<T> = None | Some(value: T)

  /** The keys the listener tells apart; `Other` is every other rune,
      `Empty` the zero key. */
  datatype Key = Empty | KeyEnter | KeyBackspace | KeyForward | KeyBackward | Other(code: char)

  /** The fields of a cursor that its operations change. */
  datatype State = State(input: seq<char>, position: int, erase: bool) {
    /** The caret lies on a rune boundary of the input. */
    predicate Valid() {
      0 <= position <= |input|
    }
  }

  /** What the listener returns besides its new state: whether to go on. */
  datatype Reply = Reply(next: State, more: bool)

  /** Bring `x` into [lo, hi], testing the upper bound first as the cursor does. */
  function Clamp(x: int, lo: int, hi: int): (r: int)
    requires lo <= hi
    ensures lo <= r <= hi
    ensures lo <= x <= hi ==> r == x
    ensures x < lo ==> r == lo
    ensures x > hi ==> r == hi
  {
    if x > hi then hi else if x < lo then lo else x
  }

  /** Put the caret at `p`, clamped into the input. */
  function Place(s: State, p: int): (r: State)
    ensures r.Valid() && r.input == s.input && r.erase == s.erase
    ensures 0 <= p <= |s.input| ==> r.position == p
    ensures p < 0 ==> r.position == 0
    ensures p > |s.input| ==> r.position == |s.input|
  {
    s.(position := Clamp(p, 0, |s.input|))
  }

  /** Shift the caret by `shift`, clamped into the input. */
  function Move(s: State, shift: int): (r: State)
    ensures r == Place(s, s.position + shift)
  {
    s.(position := Clamp(s.position + shift, 0, |s.input|))
  }

  /** Caret to the first rune. */
  function Start(s: State): (r: State)
    ensures r.Valid() && r.input == s.input && r.erase == s.erase && r.position == 0
  {
    Place(s, 0)
  }

  /** Caret past the last rune. */
  function End(s: State): (r: State)
    ensures r.Valid() && r.input == s.input && r.erase == s.erase && r.position == |s.input|
  {
    Place(s, |s.input|)
  }

  /** Splice `t` in at the caret and leave the caret just after it. */
  function Update(s: State, t: seq<char>): (r: State)
    requires s.Valid()
    ensures r.Valid() && r.erase == s.erase
    ensures r.position == s.position + |t| && |r.input| == |s.input| + |t|
    ensures r.input[..s.position] == s.input[..s.position]
    ensures r.input[s.position..r.position] == t
    ensures r.input[r.position..] == s.input[s.position..]
  {
    var a, i := s.input, s.position;
    Move(s.(input := a[..i] + t + a[i..]), |t|)
  }

  /** Install `t` as the whole input with the caret at its end. */
  function Replace(s: State, t: seq<char>): (r: State)
    ensures r.Valid() && r.input == t && r.position == |t| && r.erase == s.erase
  {
    End(s.(input := t))
  }

  /** Remove the rune before the caret; nothing happens at the start. */
  function Backspace(s: State): (r: State)
    requires s.Valid()
    ensures r.Valid() && r.erase == s.erase
    ensures s.position == 0 ==> r == s
    ensures s.position > 0 ==>
      && r.position == s.position - 1
      && |r.input| == |s.input| - 1
      && r.input[..r.position] == s.input[..r.position]
      && r.input[r.position..] == s.input[s.position..]
  {
    var a, i := s.input, s.position;
    if i == 0 then s
    else Move(s.(input := a[..i - 1] + a[i..]), -1)
  }

  /** The runes of an optional line; no line reads as no runes. */
  function LineText(line: Option<seq<char>>): (t: seq<char>)
    ensures line.Some? ==> t == line.value
    ensures line.None? ==> t == []
  {
    match line
    case None => []
    case Some(l) => l
  }

  /** The listener's first step: a line, when there is one, is inserted. */
  function Reconcile(s: State, line: Option<seq<char>>): (r: State)
    requires s.Valid()
    ensures r == Update(s, LineText(line))
  {
    if line.Some? then Update(s, line.value) else s
  }

  /**
   * One call of the listener: reconcile the line, then act on the key.
   * Enter stops and changes nothing more; in placeholder mode Backspace wipes
   * the input and Forward and any other key leave that mode; any other key
   * in placeholder mode inserts the line a second time.
   */
  function Listen(s: State, line: Option<seq<char>>, key: Key): (r: Reply)
    requires s.Valid()
    ensures r.next.Valid()
    ensures r.more <==> key != KeyEnter
    ensures r.next.erase ==> s.erase
  {
    var c := Reconcile(s, line);
    match key
    case Empty => Reply(c, true)
    case KeyEnter => Reply(c, false)
    case KeyBackspace =>
      var c' := if c.erase then Replace(c.(erase := false), []) else c;
      Reply(Backspace(c'), true)
    case KeyForward => Reply(Move(c.(erase := false), 1), true)
    case KeyBackward => Reply(Move(c, -1), true)
    case Other(_) =>
      if c.erase then Reply(Update(c.(erase := false), LineText(line)), true)
      else Reply(c, true)
  }

  // ---------------------------------------------------------------------
  // Caret movement

  /** A move that stays inside the input is exact, and moving back undoes it. */
  lemma MoveUndo(s: State, shift: int)
    requires s.Valid() && 0 <= s.position + shift <= |s.input|
    ensures Move(s, shift).position == s.position + shift
    ensures Move(Move(s, shift), -shift) == s
  {
  }

  /** Moves that stay inside the input add up. */
  lemma MoveCompose(s: State, d1: int, d2: int)
    requires 0 <= s.position + d1 <= |s.input|
    ensures Move(Move(s, d1), d2) == Move(s, d1 + d2)
  {
  }

  // ---------------------------------------------------------------------
  // Insertion and deletion

  /** Inserting nothing changes nothing. */
  lemma UpdateEmpty(s: State)
    requires s.Valid()
    ensures Update(s, []) == s
  {
    assert s.input[..s.position] + [] + s.input[s.position..] == s.input;
  }

  /** Inserting `t` and then `u` is inserting `t + u`: typing rune by rune
      and pasting the whole text give the same state. */
  lemma {:induction false} UpdateConcat(s: State, t: seq<char>, u: seq<char>)
    requires s.Valid()
    ensures Update(Update(s, t), u) == Update(s, t + u)
  {
    var a, p := s.input, s.position;
    var r1 := Update(s, t);
    assert r1.input == a[..p] + t + a[p..] by {
      assert r1.input == r1.input[..p] + r1.input[p..r1.position] + r1.input[r1.position..];
    }
    var r2 := Update(r1, u);
    var r3 := Update(s, t + u);
    assert r2.input == r2.input[..r1.position] + u + r1.input[r1.position..] by {
      assert r2.input == r2.input[..r1.position] + r2.input[r1.position..r2.position] + r2.input[r2.position..];
    }
    assert r3.input == a[..p] + (t + u) + a[p..] by {
      assert r3.input == r3.input[..p] + r3.input[p..r3.position] + r3.input[r3.position..];
    }
    assert r1.input[..r1.position] == a[..p] + t;
    assert r2.input[..r1.position] == a[..p] + t;
  }

  /** Typing a rune and deleting it restores the state. */
  lemma TypeThenBackspace(s: State, c: char)
    requires s.Valid()
    ensures Backspace(Update(s, [c])) == s
  {
    var r := Backspace(Update(s, [c]));
    var a, p := s.input, s.position;
    assert r.input == r.input[..p] + r.input[p..];
    assert r.input == a[..p] + a[p..];
  }

  /** Deleting the rune before the caret and typing it again restores the state. */
  lemma BackspaceThenRetype(s: State)
    requires s.Valid() && s.position > 0
    ensures Update(Backspace(s), [s.input[s.position - 1]]) == s
  {
    var a, p := s.input, s.position;
    var b := Backspace(s);
    var r := Update(b, [a[p - 1]]);
    assert r.input == r.input[..p - 1] + r.input[p - 1..p] + r.input[p..];
    assert a == a[..p - 1] + a[p - 1..p] + a[p..];
  }

  // ---------------------------------------------------------------------
  // The listener

  /** Enter returns the reconciled state and stops. */
  lemma ListenEnter(s: State, line: Option<seq<char>>)
    requires s.Valid()
    ensures Listen(s, line, KeyEnter) == Reply(Update(s, LineText(line)), false)
  {
  }

  /** The erase flag is only ever cleared: once editing, always editing. */
  lemma ListenNeverSetsErase(s: State, line: Option<seq<char>>, key: Key)
    requires s.Valid()
    ensures Listen(s, line, key).next.erase ==> s.erase
    ensures s.erase && (key.KeyBackspace? || key.KeyForward? || key.Other?) ==> !Listen(s, line, key).next.erase
    ensures key.Empty? || key.KeyEnter? || key.KeyBackward? ==> Listen(s, line, key).next.erase == s.erase
  {
  }

  /** In editing mode the keys act as plain edits after reconciliation. */
  lemma ListenEditing(s: State, line: Option<seq<char>>, key: Key)
    requires s.Valid() && !s.erase
    ensures var c := Update(s, LineText(line));
      Listen(s, line, key).next ==
        match key
        case KeyBackspace => Backspace(c)
        case KeyForward => Move(c, 1)
        case KeyBackward => Move(c, -1)
        case _ => c
  {
  }

  /** In either mode the empty key changes nothing after reconciliation,
      Backward moves the caret back one and keeps the flag, and Forward
      clears the flag and moves the caret on one. */
  lemma ListenMoves(s: State, line: Option<seq<char>>)
    requires s.Valid()
    ensures var c := Update(s, LineText(line));
      && Listen(s, line, Empty).next == c
      && Listen(s, line, KeyBackward).next == Move(c, -1)
      && Listen(s, line, KeyForward).next == Move(c.(erase := false), 1)
  {
  }

  /** In placeholder mode Backspace leaves an empty input, caret at 0, editing. */
  lemma ListenPlaceholderBackspace(s: State, line: Option<seq<char>>)
    requires s.Valid() && s.erase
    ensures Listen(s, line, KeyBackspace).next == State([], 0, false)
  {
  }

  /**
   * In placeholder mode any other key keeps the placeholder and inserts the
   * line twice at the caret: once to reconcile and once more on leaving
   * placeholder mode.
   */
  lemma ListenPlaceholderOther(s: State, line: Option<seq<char>>, c: char)
    requires s.Valid() && s.erase
    ensures var l, p := LineText(line), s.position;
      Listen(s, line, Other(c)).next ==
        State(s.input[..p] + l + l + s.input[p..], p + 2 * |l|, false)
  {
    var l, p := LineText(line), s.position;
    UpdateConcat(s.(erase := false), l, l);
    var r := Update(s.(erase := false), l + l);
    assert r.input == r.input[..p] + r.input[p..r.position] + r.input[r.position..];
  }

  /** A prompt built with default "yes" in placeholder mode and then given the
      line "n" with a literal key ends with "nnyes", caret 2. */
  lemma PlaceholderTypingExample()
    ensures Listen(State("yes", 0, true), Some("n"), Other('n')) == Reply(State("nnyes", 2, false), true)
  {
    ListenPlaceholderOther(State("yes", 0, true), Some("n"), 'n');
  }

  /** Without placeholder mode, moving back from the end of "yes" gives caret 2. */
  lemma BackwardExample()
    ensures Listen(State("yes", 3, false), None, KeyBackward) == Reply(State("yes", 2, false), true)
  {
  }

  // ---------------------------------------------------------------------
  // Sequences of operations

  /** Type `w` one rune at a time. */
  function TypeRunes(s: State, w: seq<char>): (r: State)
    requires s.Valid()
    ensures r.Valid() && r.erase == s.erase
    ensures r.position == s.position + |w| && |r.input| == |s.input| + |w|
    ensures r.input[..s.position] == s.input[..s.position]
    ensures r.input[r.position..] == s.input[s.position..]
    decreases |w|
  {
    if w == [] then s else TypeRunes(Update(s, [w[0]]), w[1..])
  }

  /** Press backspace `n` times. */
  function Backspaces(s: State, n: nat): (r: State)
    requires s.Valid()
    ensures r.Valid() && r.erase == s.erase
    ensures r.position == if n <= s.position then s.position - n else 0
    decreases n
  {
    if n == 0 then s else Backspaces(Backspace(s), n - 1)
  }

  /** Typing a text rune by rune and inserting it in one update give the same state. */
  lemma {:induction false} TypeRunesIsUpdate(s: State, w: seq<char>)
    requires s.Valid()
    ensures TypeRunes(s, w) == Update(s, w)
    decreases |w|
  {
    if w == [] {
      UpdateEmpty(s);
    } else {
      TypeRunesIsUpdate(Update(s, [w[0]]), w[1..]);
      UpdateConcat(s, [w[0]], w[1..]);
      assert [w[0]] + w[1..] == w;
    }
  }

  /** As many backspaces as runes were inserted undo the insertion. */
  lemma {:induction false} BackspacesUndoUpdate(s: State, w: seq<char>)
    requires s.Valid()
    ensures Backspaces(Update(s, w), |w|) == s
    decreases |w|
  {
    if w == [] {
      UpdateEmpty(s);
    } else {
      var init, last := w[..|w| - 1], w[|w| - 1];
      assert init + [last] == w;
      UpdateConcat(s, init, [last]);
      TypeThenBackspace(Update(s, init), last);
      BackspacesUndoUpdate(s, init);
    }
  }

  /** One event from the line reader: the line it reports and the key. */
  datatype Event = Event(line: Option<seq<char>>, key: Key)

  /**
   * A prompt session: feed the events to the listener in order until one of
   * them says stop. The reply holds the last state and whether the session
   * is still going. The caret stays within the input, and a session that
   * starts in editing mode never returns to placeholder mode.
   */
  function Session(s: State, events: seq<Event>): (r: Reply)
    requires s.Valid()
    ensures r.next.Valid()
    ensures r.next.erase ==> s.erase
    decreases |events|
  {
    if events == [] then Reply(s, true)
    else
      var step := Listen(s, events[0].line, events[0].key);
      if !step.more then step else Session(step.next, events[1..])
  }

  /** A session stops exactly when one of its events is Enter. */
  lemma {:induction false} SessionStopsOnEnter(s: State, events: seq<Event>)
    requires s.Valid()
    ensures !Session(s, events).more <==> exists i :: 0 <= i < |events| && events[i].key == KeyEnter
    decreases |events|
  {
    if events != [] {
      var step := Listen(s, events[0].line, events[0].key);
      if step.more {
        SessionStopsOnEnter(step.next, events[1..]);
        if exists i :: 0 <= i < |events| && events[i].key == KeyEnter {
          var i :| 0 <= i < |events| && events[i].key == KeyEnter;
          assert events[1..][i - 1].key == KeyEnter;
        }
        if exists j :: 0 <= j < |events[1..]| && events[1..][j].key == KeyEnter {
          var j :| 0 <= j < |events[1..]| && events[1..][j].key == KeyEnter;
          assert events[j + 1].key == KeyEnter;
        }
      }
    }
  }

  /** Moving the caret with the arrow keys never changes the input. */
  lemma {:induction false} ArrowsKeepInput(s: State, events: seq<Event>)
    requires s.Valid()
    requires forall i :: 0 <= i < |events| ==>
      events[i].line.None? && (events[i].key.KeyForward? || events[i].key.KeyBackward?)
    ensures Session(s, events).next.input == s.input
    decreases |events|
  {
    if events != [] {
      var step := Listen(s, events[0].line, events[0].key);
      assert step.next.input == s.input;
      ArrowsKeepInput(step.next, events[1..]);
    }
  }
}
