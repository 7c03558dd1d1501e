/**
 * `useTypewriterLoop` in `HomeSection.tsx`: the hero line types one of the
 * given strings character by character, pauses, deletes it again and moves on
 * to the next string, forever. Each timer callback is one transition over
 * `(typed, index, isDeleting)`; the delays themselves are not modelled.
 */
module Typewriter {

  /** The hook's state: `typed`, `index` and `isDeleting`. */
  datatype State = State(typed: string, index: nat, deleting: bool)

  /** `s.slice(0, k)` for `k >= 0`: the first `k` characters, or all when there are fewer. */
  function Slice(s: string, k: nat): (r: string)
    ensures r <= s
    ensures |r| == if k <= |s| then k else |s|
  {
    if k <= |s| then s[..k] else s
  }

  /** `strings[index % strings.length]`, the text being typed. */
  function Target(strings: seq<string>, index: nat): string
    requires |strings| > 0
  {
    strings[index % |strings|]
  }

  /**
   * The transition the effect schedules for a state: type one more character,
   * start deleting once the whole text is shown, delete one character, or move
   * to the next string once everything is deleted. Any other state is left
   * as it is.
   */
  function Next(strings: seq<string>, st: State): (r: State)
    requires |strings| > 0
    ensures r.index == st.index || (st.deleting && st.typed == "" && r.index == (st.index + 1) % |strings|)
    ensures r.typed == st.typed || r.typed <= Target(strings, st.index)
  {
    var full := Target(strings, st.index);
    if !st.deleting && |st.typed| < |full| then State(Slice(full, |st.typed| + 1), st.index, st.deleting)
    else if !st.deleting && |st.typed| == |full| then State(st.typed, st.index, true)
    else if st.deleting && |st.typed| > 0 then State(Slice(full, |st.typed| - 1), st.index, st.deleting)
    else if st.deleting && |st.typed| == 0 then State(st.typed, (st.index + 1) % |strings|, false)
    else st
  }

  /** `k` transitions in a row. */
  function Steps(strings: seq<string>, st: State, k: nat): State
    requires |strings| > 0
  {
    if k == 0 then st else Next(strings, Steps(strings, st, k - 1))
  }

  /** The index is in range and the typed text is a prefix of its string. */
  predicate Consistent(strings: seq<string>, st: State) {
    st.index < |strings| && st.typed <= strings[st.index]
  }

  /** Every transition keeps the state consistent. */
  lemma NextConsistent(strings: seq<string>, st: State)
    requires |strings| > 0 && Consistent(strings, st)
    ensures Consistent(strings, Next(strings, st))
  {
  }

  /** However many transitions run, the state stays consistent. */
  lemma {:induction false} StepsConsistent(strings: seq<string>, st: State, k: nat)
    requires |strings| > 0 && Consistent(strings, st)
    ensures Consistent(strings, Steps(strings, st, k))
  {
    if k > 0 {
      StepsConsistent(strings, st, k - 1);
      NextConsistent(strings, Steps(strings, st, k - 1));
    }
  }

  /** A typing step appends exactly the next character of the string. */
  lemma TypingStep(strings: seq<string>, st: State)
    requires |strings| > 0 && Consistent(strings, st)
    requires !st.deleting && |st.typed| < |strings[st.index]|
    ensures Next(strings, st) == State(st.typed + [strings[st.index][|st.typed|]], st.index, false)
  {
    var full := strings[st.index];
    assert st.typed == full[..|st.typed|];
    assert full[..|st.typed| + 1] == full[..|st.typed|] + [full[|st.typed|]];
  }

  /** Once the whole string is shown, the only change is that deleting starts. */
  lemma PauseStep(strings: seq<string>, st: State)
    requires |strings| > 0 && Consistent(strings, st)
    requires !st.deleting && st.typed == strings[st.index]
    ensures Next(strings, st) == State(st.typed, st.index, true)
  {
  }

  /** A deleting step removes exactly the last character. */
  lemma DeletingStep(strings: seq<string>, st: State)
    requires |strings| > 0 && Consistent(strings, st)
    requires st.deleting && |st.typed| > 0
    ensures Next(strings, st) == State(st.typed[..|st.typed| - 1], st.index, true)
  {
    var full := strings[st.index];
    assert st.typed == full[..|st.typed|];
  }

  /** With everything deleted, the next string is chosen and typing starts again. */
  lemma AdvanceStep(strings: seq<string>, st: State)
    requires |strings| > 0 && Consistent(strings, st)
    requires st.deleting && st.typed == ""
    ensures Next(strings, st) == State("", (st.index + 1) % |strings|, false)
  {
  }

  /**
   * Where the typewriter is `k` transitions into string `s`: typing for the
   * first `|s|` steps, then deleting, and on the next string after `2|s| + 2`.
   */
  function CyclePoint(s: string, i: nat, next: nat, k: nat): State {
    if k <= |s| then State(s[..k], i, false)
    else if k <= 2 * |s| + 1 then State(s[..2 * |s| + 1 - k], i, true)
    else State("", next, false)
  }

  lemma {:induction false} CycleClosedForm(strings: seq<string>, i: nat, k: nat)
    requires |strings| > 0 && i < |strings| && k <= 2 * |strings[i]| + 2
    ensures Steps(strings, State("", i, false), k) == CyclePoint(strings[i], i, (i + 1) % |strings|, k)
  {
    var s := strings[i];
    var next := (i + 1) % |strings|;
    if k > 0 {
      CycleClosedForm(strings, i, k - 1);
      var prev := CyclePoint(s, i, next, k - 1);
      assert Steps(strings, State("", i, false), k) == Next(strings, prev);
      if k - 1 < |s| {
        assert prev == State(s[..k - 1], i, false);
        TypingStep(strings, prev);
        assert s[..k] == s[..k - 1] + [s[k - 1]];
      } else if k - 1 == |s| {
        assert s[..|s|] == s;
        assert prev == State(s, i, false);
        PauseStep(strings, prev);
      } else if k - 1 <= 2 * |s| {
        assert prev == State(s[..2 * |s| + 2 - k], i, true);
        DeletingStep(strings, prev);
        assert s[..2 * |s| + 2 - k][..2 * |s| + 1 - k] == s[..2 * |s| + 1 - k];
      } else {
        assert prev == State("", i, true);
        AdvanceStep(strings, prev);
      }
    }
  }

  /**
   * From `("", i, false)` the typewriter reaches `("", (i + 1) % n, false)`
   * after exactly `2|s_i| + 2` transitions, and not before.
   */
  lemma Cycle(strings: seq<string>, i: nat)
    requires |strings| > 0 && i < |strings|
    ensures var n := 2 * |strings[i]| + 2;
      Steps(strings, State("", i, false), n) == State("", (i + 1) % |strings|, false)
    ensures forall k :: 0 < k < 2 * |strings[i]| + 2 ==>
      Steps(strings, State("", i, false), k) != State("", (i + 1) % |strings|, false)
  {
    CycleClosedForm(strings, i, 2 * |strings[i]| + 2);
    forall k | 0 < k < 2 * |strings[i]| + 2
      ensures Steps(strings, State("", i, false), k) != State("", (i + 1) % |strings|, false)
    {
      CycleClosedForm(strings, i, k);
      if k <= |strings[i]| {
        assert |strings[i][..k]| == k;
      }
    }
  }

  /** The hook, with the three state variables it updates. */
  class TypewriterLoop {
    const strings: seq<string>
    var typed: string
    var index: nat
    var isDeleting: bool

    function Current(): State
      reads this
    {
      State(typed, index, isDeleting)
    }

    predicate Valid()
      reads this
    {
      |strings| > 0 && Consistent(strings, Current())
    }

    /** `useState("")`, `useState(0)`, `useState(false)`; the strings must not be empty. */
    constructor(strings: seq<string>)
      requires |strings| > 0
      ensures this.strings == strings && Current() == State("", 0, false) && Valid()
    {
      this.strings := strings;
      typed := "";
      index := 0;
      isDeleting := false;
    }

    /** One timer callback: the transition the effect scheduled for the current state. */
    method Step()
      requires |strings| > 0
      modifies this
      ensures Current() == Next(strings, old(Current()))
      ensures old(Valid()) ==> Valid()
    {
      if Valid() {
        NextConsistent(strings, Current());
      }
      var fullText := strings[index % |strings|];
      if !isDeleting && |typed| < |fullText| {
        typed := Slice(fullText, |typed| + 1);
      } else if !isDeleting && |typed| == |fullText| {
        isDeleting := true;
      } else if isDeleting && |typed| > 0 {
        typed := Slice(fullText, |typed| - 1);
      } else if isDeleting && |typed| == 0 {
        index := (index + 1) % |strings|;
        isDeleting := false;
      }
    }
  }
}
