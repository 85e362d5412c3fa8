/**
 * The interactive stack picker of `codo init` (cli/internal/tui/init_wizard.go):
 * a cursor over four options, a set of ticked options, and the keys that move,
 * tick, confirm or abort. Rendering is not modelled; the terminal program is
 * a sequence of key names fed to `Update` until one of them quits.
 */
module Wizard {
  import opened Wrappers
  import opened StringOrder
  import Resolver

  /** What the picker hands back to `init`. */
  datatype InitResult = InitResult(stacks: seq<string>, confirmed: bool)

  /** One option: the stack key and the caption shown for it. */
  datatype Choice = Choice(key: string, caption: string)

  const Opts: seq<Choice> :=
    [Choice("go", "Go"), Choice("typescript", "TypeScript / Node"), Choice("python", "Python"), Choice("flutter", "Flutter")]

  /** The picker state; a missing index in `selected` reads as unticked, as a
      Go map lookup does. */
  datatype Picker = Picker(cursor: int, selected: map<int, bool>, quit: bool, confirm: bool)

  const Start: Picker := Picker(0, map[], false, false)

  /** The indices of the options, which `a` ticks all of. */
  const Indices: set<int> := set i | 0 <= i < |Opts|

  /** The cursor points at an option and only options are ever ticked. */
  predicate Valid(m: Picker) {
    0 <= m.cursor < |Opts| && forall i :: i in m.selected ==> 0 <= i < |Opts|
  }

  predicate Ticked(m: Picker, i: int) {
    i in m.selected && m.selected[i]
  }

  /** The new state and whether the key ends the program (`tea.Quit`). */
  datatype Step = Step(m: Picker, quits: bool)

  predicate QuitKey(key: string) {
    key == "ctrl+c" || key == "q" || key == "enter"
  }

  /** `model.Update` for one key press. */
  function Update(m: Picker, key: string): (r: Step)
    ensures Valid(m) ==> Valid(r.m)
    ensures r.quits <==> QuitKey(key)
    ensures r.quits ==> r.m.quit && (r.m.confirm <==> key == "enter") && r.m.selected == m.selected
    ensures !r.quits ==> r.m.quit == m.quit && r.m.confirm == m.confirm
    ensures key !in {"ctrl+c", "q", "up", "k", "down", "j", " ", "a", "n", "enter"} ==> r == Step(m, false)
    // moving: one step towards either end, stopping there; the ticks stay
    ensures key in {"up", "k"} ==>
              r.m.selected == m.selected && r.m.cursor == (if m.cursor > 0 then m.cursor - 1 else m.cursor)
    ensures key in {"down", "j"} ==>
              r.m.selected == m.selected && r.m.cursor == (if m.cursor < |Opts| - 1 then m.cursor + 1 else m.cursor)
    // every other key leaves the cursor where it was
    ensures key !in {"up", "k", "down", "j"} ==> r.m.cursor == m.cursor
    // space flips the option under the cursor and no other
    ensures key == " " ==> forall i :: Ticked(r.m, i) <==> (if i == m.cursor then !Ticked(m, i) else Ticked(m, i))
    // `a` ticks every option, `n` unticks everything
    ensures key == "a" ==> forall i :: Ticked(r.m, i) <==> (0 <= i < |Opts| || Ticked(m, i))
    ensures key == "n" ==> forall i :: !Ticked(r.m, i)
  {
    if key == "ctrl+c" || key == "q" then Step(m.(quit := true, confirm := false), true)
    else if key == "up" || key == "k" then Step(if m.cursor > 0 then m.(cursor := m.cursor - 1) else m, false)
    else if key == "down" || key == "j" then Step(if m.cursor < |Opts| - 1 then m.(cursor := m.cursor + 1) else m, false)
    else if key == " " then Step(m.(selected := m.selected[m.cursor := !Ticked(m, m.cursor)]), false)
    else if key == "a" then Step(m.(selected := m.selected + map i | i in Indices :: true), false)
    else if key == "n" then Step(m.(selected := map[]), false)
    else if key == "enter" then Step(m.(confirm := true, quit := true), true)
    else Step(m, false)
  }

  /** Feed keys until one quits; `None` when the keys run out first (the
      program is still waiting). */
  function Drive(m: Picker, keys: seq<string>): (r: Option<Picker>)
    ensures Valid(m) && r.Some? ==> Valid(r.value)
    ensures r.Some? ==> r.value.quit
    decreases |keys|
  {
    if |keys| == 0 then None
    else
      var s := Update(m, keys[0]);
      if s.quits then Some(s.m) else Drive(s.m, keys[1..])
  }

  /** The keys of the ticked options. */
  function TickedKeys(m: Picker): set<string>
    requires Valid(m)
  {
    set i | i in m.selected && m.selected[i] :: Opts[i].key
  }

  /** The result of `RunInitWizard` once the program has ended: an abort
      gives no stacks and no confirmation; otherwise the ticked keys sorted. */
  function Finish(out: Picker): (r: InitResult)
    requires Valid(out)
    ensures out.quit && !out.confirm ==> r == InitResult([], false)
    ensures !(out.quit && !out.confirm) ==> r.confirmed && (forall k :: k in r.stacks <==> k in TickedKeys(out))
    ensures StrictlySorted(r.stacks)
  {
    if out.quit && !out.confirm then InitResult([], false)
    else InitResult(SortSet(TickedKeys(out)), true)
  }

  /** `RunInitWizard` for a given key sequence. */
  function RunWizard(keys: seq<string>): (r: Option<InitResult>)
    ensures r.Some? ==> StrictlySorted(r.value.stacks)
  {
    match Drive(Start, keys)
    case None => None
    case Some(out) => Some(Finish(out))
  }

  /** The cursor never leaves the list, whatever the keys. */
  lemma {:induction false} CursorStaysInRange(m: Picker, keys: seq<string>)
    requires Valid(m)
    ensures forall k :: 0 <= k <= |keys| ==> Valid(Walk(m, keys[..k]))
    decreases |keys|
  {
    if |keys| > 0 {
      CursorStaysInRange(Update(m, keys[0]).m, keys[1..]);
      forall k | 0 < k <= |keys|
        ensures Valid(Walk(m, keys[..k]))
      {
        assert keys[..k][1..] == keys[1..][..k - 1];
      }
    }
  }

  /** Every key applied, ignoring quits: the state the cursor bound is about. */
  function Walk(m: Picker, keys: seq<string>): Picker
    decreases |keys|
  {
    if |keys| == 0 then m else Walk(Update(m, keys[0]).m, keys[1..])
  }

  /** Space twice on the same option leaves every tick as it was. */
  lemma ToggleTwice(m: Picker)
    requires Valid(m)
    ensures forall i :: Ticked(Update(Update(m, " ").m, " ").m, i) <==> Ticked(m, i)
  {
  }

  /** Aborting discards whatever was ticked. */
  lemma AbortDiscards(m: Picker, key: string)
    requires Valid(m) && (key == "q" || key == "ctrl+c")
    ensures Finish(Update(m, key).m) == InitResult([], false)
  {
  }

  /** The picker only offers allow-listed stacks, so the loaders keep every
      stack it returns, in its order. */
  lemma WizardStacksSurviveFilter(keys: seq<string>)
    requires RunWizard(keys).Some?
    ensures Resolver.FilterAllowed(RunWizard(keys).value.stacks) == RunWizard(keys).value.stacks
  {
    var out := Drive(Start, keys).value;
    var st := RunWizard(keys).value.stacks;
    forall k | k in st
      ensures k in Resolver.AllowedStacks
    {
      assert k in TickedKeys(out);
      var i :| i in out.selected && out.selected[i] && Opts[i].key == k;
      OptionsAllowed(i);
    }
    FilterKeepsAllowed(st);
  }

  lemma OptionsAllowed(i: int)
    requires 0 <= i < |Opts|
    ensures Opts[i].key in Resolver.AllowedStacks
  {
    assert Resolver.AllowedStacks[3 + i] == Opts[i].key;
  }

  /** Filtering keeps a list of allow-listed stacks as it is. */
  lemma {:induction false} FilterKeepsAllowed(st: seq<string>)
    requires forall k :: k in st ==> k in Resolver.AllowedStacks
    ensures Resolver.FilterAllowed(st) == st
    decreases |st|
  {
    if |st| > 0 {
      assert st[0] in st;
      FilterKeepsAllowed(st[1..]);
      assert st == [st[0]] + st[1..];
    }
  }

  /** With every option ticked, the ticked keys are all four stacks. */
  lemma AllTicked(m: Picker)
    requires Valid(m) && forall i :: 0 <= i < |Opts| ==> Ticked(m, i)
    ensures TickedKeys(m) == {"go", "typescript", "python", "flutter"}
  {
    assert Ticked(m, 0) && Ticked(m, 1) && Ticked(m, 2) && Ticked(m, 3);
  }

  /** `a` then Enter picks every stack, sorted. */
  lemma AllThenEnter()
    ensures RunWizard(["a", "enter"]) == Some(InitResult(["flutter", "go", "python", "typescript"], true))
  {
    var keys := ["a", "enter"];
    var s1 := Update(Start, "a");
    assert !s1.quits && keys[1..] == ["enter"];
    var s2 := Update(s1.m, "enter");
    assert Drive(Start, keys) == Some(s2.m);
    forall i | 0 <= i < |Opts|
      ensures Ticked(s2.m, i)
    {
      assert i in Indices;
    }
    AllTicked(s2.m);
    AllStacksSorted();
  }

  /** The four stack keys in sorted order. */
  lemma AllStacksSorted()
    ensures SortSet({"go", "typescript", "python", "flutter"}) == ["flutter", "go", "python", "typescript"]
  {
    var want := ["flutter", "go", "python", "typescript"];
    FirstLetterLess("flutter", "go");
    FirstLetterLess("flutter", "python");
    FirstLetterLess("flutter", "typescript");
    FirstLetterLess("go", "python");
    FirstLetterLess("go", "typescript");
    FirstLetterLess("python", "typescript");
    assert StrictlySorted(want);
    var r := SortSet({"go", "typescript", "python", "flutter"});
    assert forall x :: x in r <==> x in want;
    SortedUnique(r, want);
  }

  lemma FirstLetterLess(a: string, b: string)
    requires |a| > 0 && |b| > 0 && a[0] < b[0]
    ensures Less(a, b)
  {
  }

  /** Enter straight away confirms an install with no stacks. */
  lemma EnterAlone()
    ensures RunWizard(["enter"]) == Some(InitResult([], true))
  {
    assert TickedKeys(Start) == {};
  }
}
