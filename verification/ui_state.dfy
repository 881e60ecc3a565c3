/**
 * The per-user UI memory of the bot: the id of the last prompt and a stack of
 * "screens" (menu messages) that Cancel and Back unwind. The memory is a map
 * from user id to a record; every operation returns the new map.
 */
module UiState {
  import opened Wrappers

  type UserId = string

  /** A message the bot showed, with the kind of screen it belongs to. */
  datatype Screen = Screen(kind: string, messageId: int)

  /** The spinner's message id; its interval timer is not part of this model. */
  datatype Spinner = Spinner(msgId: Option<int>)

  /** A stored record: screens and spinner are always present. */
  datatype Ui = Ui(lastPromptId: Option<int>, screens: seq<Screen>, spinner: Spinner)

  /** A record handed to `setUI`, where screens and spinner may be missing. */
  datatype RawUi = RawUi(lastPromptId: Option<int>, screens: Option<seq<Screen>>, spinner: Option<Spinner>)

  type Memory = map<UserId, Ui>

  /** What `getUI` creates for a user it has not seen. */
  const EmptyUi := Ui(None, [], Spinner(None))

  /** The screens of `u`, empty for a user without an entry. */
  function Screens(mem: Memory, u: UserId): seq<Screen> {
    if u in mem then mem[u].screens else []
  }

  /** Every entry other than `u`'s is the same in both maps. */
  predicate OthersUnchanged(mem: Memory, mem': Memory, u: UserId) {
    && mem'.Keys - {u} == mem.Keys - {u}
    && forall v :: v in mem && v != u ==> v in mem' && mem'[v] == mem[v]
  }

  /** `getUI`: the user's record, created empty and stored on first use. */
  function GetUI(mem: Memory, u: UserId): (r: (Memory, Ui))
    ensures u in r.0 && r.0[u] == r.1
    ensures u in mem ==> r.1 == mem[u] && r.0 == mem
    ensures u !in mem ==> r.1.lastPromptId.None? && r.1.screens == [] && r.1.spinner.msgId.None?
    ensures OthersUnchanged(mem, r.0, u)
  {
    if u in mem then (mem, mem[u]) else (mem[u := EmptyUi], EmptyUi)
  }

  /** `setUI`: stores the record, filling in missing screens and spinner. */
  function SetUI(mem: Memory, u: UserId, raw: RawUi): (r: Memory)
    ensures u in r
    ensures r[u].lastPromptId == raw.lastPromptId
    ensures raw.screens.Some? ==> r[u].screens == raw.screens.value
    ensures raw.screens.None? ==> r[u].screens == []
    ensures raw.spinner.Some? ==> r[u].spinner == raw.spinner.value
    ensures raw.spinner.None? ==> r[u].spinner.msgId.None?
    ensures OthersUnchanged(mem, r, u)
  {
    mem[u := Ui(raw.lastPromptId, raw.screens.GetOr([]), raw.spinner.GetOr(Spinner(None)))]
  }

  /** A stored record handed back to `setUI` as it is. */
  function AsRaw(ui: Ui): RawUi {
    RawUi(ui.lastPromptId, Some(ui.screens), Some(ui.spinner))
  }

  /** `resetUI`: the user starts over with no prompt and no screens. */
  function ResetUI(mem: Memory, u: UserId): (r: Memory)
    ensures u in r && r[u].lastPromptId.None? && r[u].screens == [] && r[u].spinner.msgId.None?
    ensures OthersUnchanged(mem, r, u)
  {
    mem[u := EmptyUi]
  }

  /** `pushScreen`: the screen goes on top of the user's stack. */
  function PushScreen(mem: Memory, u: UserId, s: Screen): (r: Memory)
    ensures u in r && r[u].screens == Screens(mem, u) + [s]
    ensures u in mem ==> r[u].lastPromptId == mem[u].lastPromptId && r[u].spinner == mem[u].spinner
    ensures OthersUnchanged(mem, r, u)
  {
    var (m, ui) := GetUI(mem, u);
    SetUI(m, u, AsRaw(ui.(screens := ui.screens + [s])))
  }

  /** `popScreen`: removes and returns the top screen; `None` (JavaScript's `undefined`) on an empty stack. */
  function PopScreen(mem: Memory, u: UserId): (r: (Memory, Option<Screen>))
    ensures u in r.0
    ensures Screens(mem, u) == [] ==> r.1.None? && r.0[u].screens == []
    ensures Screens(mem, u) != [] ==> r.1.Some? && Screens(mem, u) == r.0[u].screens + [r.1.value]
    ensures u in mem ==> r.0[u].lastPromptId == mem[u].lastPromptId && r.0[u].spinner == mem[u].spinner
    ensures OthersUnchanged(mem, r.0, u)
  {
    var (m, ui) := GetUI(mem, u);
    var n := |ui.screens|;
    if n == 0 then (SetUI(m, u, AsRaw(ui)), None)
    else (SetUI(m, u, AsRaw(ui.(screens := ui.screens[..n - 1]))), Some(ui.screens[n - 1]))
  }

  /** Pushing a screen and popping it returns that screen and the memory `getUI` alone would leave. */
  lemma PushThenPop(mem: Memory, u: UserId, s: Screen)
    ensures PopScreen(PushScreen(mem, u, s), u) == (GetUI(mem, u).0, Some(s))
  {
    var pushed := PushScreen(mem, u, s);
    var (m, ui) := GetUI(mem, u);
    var top := pushed[u];
    assert top == ui.(screens := ui.screens + [s]);
    assert top.screens[..|top.screens| - 1] == ui.screens;
    assert pushed[u := ui] == m;
  }

  /** Pushes the screens in order. */
  function PushAll(mem: Memory, u: UserId, ss: seq<Screen>): (r: Memory)
    decreases |ss|
  {
    if ss == [] then mem else PushAll(PushScreen(mem, u, ss[0]), u, ss[1..])
  }

  /** Pops `n` times and collects what each pop returned. */
  function PopTimes(mem: Memory, u: UserId, n: nat): (r: (Memory, seq<Option<Screen>>))
    ensures |r.1| == n
    decreases n
  {
    if n == 0 then (mem, [])
    else
      var (m, s) := PopScreen(mem, u);
      var (m', rest) := PopTimes(m, u, n - 1);
      (m', [s] + rest)
  }

  /** The screens in the opposite order, each wrapped as a pop result. */
  function Reversed(ss: seq<Screen>): (r: seq<Option<Screen>>)
    ensures |r| == |ss|
    ensures forall i :: 0 <= i < |ss| ==> r[i] == Some(ss[|ss| - 1 - i])
  {
    if ss == [] then [] else Reversed(ss[1..]) + [Some(ss[0])]
  }

  /** Pushing adds the screens above whatever the stack held. */
  lemma {:induction false} PushAllScreens(mem: Memory, u: UserId, ss: seq<Screen>)
    ensures u in PushAll(mem, u, ss) || ss == []
    ensures Screens(PushAll(mem, u, ss), u) == Screens(mem, u) + ss
    decreases |ss|
  {
    if ss != [] {
      var m := PushScreen(mem, u, ss[0]);
      PushAllScreens(m, u, ss[1..]);
      assert Screens(mem, u) + [ss[0]] + ss[1..] == Screens(mem, u) + ss;
    }
  }

  /** Reversing puts the last screen first. */
  lemma {:induction false} ReversedLast(ss: seq<Screen>)
    requires ss != []
    ensures Reversed(ss) == [Some(ss[|ss| - 1])] + Reversed(ss[..|ss| - 1])
    decreases |ss|
  {
    var n := |ss|;
    if n > 1 {
      var front := ss[..n - 1];
      ReversedLast(ss[1..]);
      assert ss[1..][..n - 2] == front[1..];
      assert front[0] == ss[0] && front != [];
      assert [Some(ss[n - 1])] + Reversed(front[1..]) + [Some(ss[0])] == [Some(ss[n - 1])] + (Reversed(front[1..]) + [Some(ss[0])]);
    }
  }

  /** Popping a stack `base + ss` with `ss` non-empty returns the last of `ss`. */
  lemma PopLast(mem: Memory, u: UserId, base: seq<Screen>, ss: seq<Screen>)
    requires Screens(mem, u) == base + ss && ss != []
    ensures PopScreen(mem, u).1 == Some(ss[|ss| - 1])
    ensures Screens(PopScreen(mem, u).0, u) == base + ss[..|ss| - 1]
  {
    var p := PopScreen(mem, u);
    var n := |ss|;
    var rest := p.0[u].screens;
    assert base + ss == (base + ss[..n - 1]) + [ss[n - 1]];
    assert rest + [p.1.value] == (base + ss[..n - 1]) + [ss[n - 1]];
    assert |rest| == |base + ss[..n - 1]|;
    assert rest == (rest + [p.1.value])[..|rest|];
  }

  /** Popping a stack `base + ss` `|ss|` times returns `ss` last-in first-out and leaves `base`. */
  lemma {:induction false} PopTimesReturnsTop(mem: Memory, u: UserId, base: seq<Screen>, ss: seq<Screen>)
    requires Screens(mem, u) == base + ss
    ensures PopTimes(mem, u, |ss|).1 == Reversed(ss)
    ensures Screens(PopTimes(mem, u, |ss|).0, u) == base
    decreases |ss|
  {
    if ss == [] {
      assert base + ss == base;
    } else {
      var n := |ss|;
      var p := PopScreen(mem, u);
      var front := ss[..n - 1];
      PopLast(mem, u, base, ss);
      PopTimesReturnsTop(p.0, u, base, front);
      ReversedLast(ss);
    }
  }

  /** The stack is last-in first-out: pushing screens and popping as many gives them back reversed. */
  lemma PushAllPopAll(mem: Memory, u: UserId, ss: seq<Screen>)
    ensures var after := PopTimes(PushAll(mem, u, ss), u, |ss|);
      after.1 == Reversed(ss) && Screens(after.0, u) == Screens(mem, u)
  {
    PushAllScreens(mem, u, ss);
    PopTimesReturnsTop(PushAll(mem, u, ss), u, Screens(mem, u), ss);
  }

  /** Popping an empty stack returns nothing and creates or keeps an empty entry. */
  lemma PopEmpty(mem: Memory, u: UserId)
    requires Screens(mem, u) == []
    ensures PopScreen(mem, u) == (GetUI(mem, u).0, None)
  {
    var (m, ui) := GetUI(mem, u);
    assert m[u := ui] == m;
  }
}
