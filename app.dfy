/** The breakpoint logic of the page shell (src/App.tsx): the content width for a
    breakpoint, the current breakpoint picked from antd's breakpoint flags, and the
    tags showing which breakpoints are active. */
module App {
  import opened Options
  import opened Collections

  /** antd's breakpoint names, narrowest first. */
  const Breakpoints: seq<string> := ["xs", "sm", "md", "lg", "xl", "xxl"]

  /** `getWidthFromScreen`: the maximum content width for a breakpoint, 992 for any
      other name. */
  function WidthFromScreen(scr: string): (width: nat)
    ensures scr !in Breakpoints ==> width == 992
    ensures scr in Breakpoints ==> 480 <= width <= 1600
  {
    if scr == "xs" then 480
    else if scr == "sm" then 576
    else if scr == "md" then 768
    else if scr == "lg" then 992
    else if scr == "xl" then 1200
    else if scr == "xxl" then 1600
    else 992
  }

  /** The widths grow strictly with the breakpoint. */
  lemma WidthsIncrease(i: nat, j: nat)
    requires i < j < |Breakpoints|
    ensures WidthFromScreen(Breakpoints[i]) < WidthFromScreen(Breakpoints[j])
  {
  }

  /** One entry of `Object.entries(screens)`: a breakpoint name and its flag, which
      antd may leave `undefined`. */
  type Entry = (string, Option<bool>)

  /** JavaScript truthiness of a flag. */
  predicate IsOn(e: Entry) {
    e.1 == Some(true)
  }

  function Name(e: Entry): string {
    e.0
  }

  /** Entry `i` is active and no later entry is. */
  predicate LastActive(screens: seq<Entry>, i: nat) {
    i < |screens| && IsOn(screens[i]) && forall j :: i < j < |screens| ==> !IsOn(screens[j])
  }

  /** One step of the `reduce`: the entry's name when its flag is set, else `prev`. */
  function Step(prev: string, e: Entry): string {
    if IsOn(e) then e.0 else prev
  }

  /** `reduce` from the left over the entries, starting at `prev`. */
  function Fold(screens: seq<Entry>, prev: string): string {
    if screens == [] then prev else Fold(screens[1..], Step(prev, screens[0]))
  }

  /** With no flag set the fold never moves off `prev`. */
  lemma {:induction false} FoldNoneActive(screens: seq<Entry>, prev: string)
    requires forall i :: 0 <= i < |screens| ==> !IsOn(screens[i])
    ensures Fold(screens, prev) == prev
  {
    if screens != [] {
      assert forall i :: 0 <= i < |screens| - 1 ==> screens[1..][i] == screens[i + 1];
      FoldNoneActive(screens[1..], prev);
    }
  }

  /** The fold ends at the last entry whose flag is set. */
  lemma {:induction false} FoldLastActive(screens: seq<Entry>, prev: string, i: nat)
    requires LastActive(screens, i)
    ensures Fold(screens, prev) == screens[i].0
  {
    var tail := screens[1..];
    var next := Step(prev, screens[0]);
    if i == 0 {
      assert forall j :: 0 <= j < |tail| ==> tail[j] == screens[j + 1];
      FoldNoneActive(tail, next);
    } else {
      assert tail[i - 1] == screens[i];
      assert forall j :: i - 1 < j < |tail| ==> tail[j] == screens[j + 1];
      FoldLastActive(tail, next, i - 1);
    }
  }

  /** Both ends of the fold at once. */
  lemma FoldFacts(screens: seq<Entry>, prev: string)
    ensures (forall i :: 0 <= i < |screens| ==> !IsOn(screens[i])) ==> Fold(screens, prev) == prev
    ensures forall i: nat :: LastActive(screens, i) ==> Fold(screens, prev) == screens[i].0
  {
    if forall i :: 0 <= i < |screens| ==> !IsOn(screens[i]) {
      FoldNoneActive(screens, prev);
    }
    forall i: nat | LastActive(screens, i) ensures Fold(screens, prev) == screens[i].0 {
      FoldLastActive(screens, prev, i);
    }
  }

  lemma {:induction false} FoldResult(screens: seq<Entry>, prev: string)
    ensures Fold(screens, prev) == prev
      || exists i :: 0 <= i < |screens| && IsOn(screens[i]) && Fold(screens, prev) == screens[i].0
  {
    if screens != [] {
      FoldResult(screens[1..], Step(prev, screens[0]));
      assert forall i :: 1 <= i < |screens| ==> screens[1..][i - 1] == screens[i];
    }
  }

  /** `currentBreakPoint`: the name of the last active breakpoint in iteration order,
      "xs" when none is active. */
  function CurrentBreakPoint(screens: seq<Entry>): (current: string)
    ensures (forall i :: 0 <= i < |screens| ==> !IsOn(screens[i])) ==> current == "xs"
    ensures forall i: nat :: LastActive(screens, i) ==> current == screens[i].0
    ensures current == "xs" || exists i :: 0 <= i < |screens| && IsOn(screens[i]) && current == screens[i].0
  {
    FoldFacts(screens, "xs");
    FoldResult(screens, "xs");
    Fold(screens, "xs")
  }

  /** The tags: the names of the active breakpoints, in iteration order. */
  function ActiveTags(screens: seq<Entry>): (tags: seq<string>)
    ensures forall n :: n in tags <==> exists i :: 0 <= i < |screens| && IsOn(screens[i]) && screens[i].0 == n
  {
    var on := Filter(screens, IsOn);
    var tags := Map(on, Name);
    assert forall n :: n in tags <==> exists e :: e in on && e.0 == n;
    tags
  }

  /** The tags of a non-empty entry list: the first entry's name when it is active,
      then the tags of the rest. */
  lemma ActiveTagsCons(screens: seq<Entry>)
    requires screens != []
    ensures ActiveTags(screens) == (if IsOn(screens[0]) then [screens[0].0] else []) + ActiveTags(screens[1..])
  {
    var rest := Filter(screens[1..], IsOn);
    if IsOn(screens[0]) {
      assert Filter(screens, IsOn) == [screens[0]] + rest;
      MapCons(screens[0], rest, Name);
    } else {
      assert Filter(screens, IsOn) == rest;
      assert [] + ActiveTags(screens[1..]) == ActiveTags(screens[1..]);
    }
  }

  /** The current breakpoint is the last tag shown, or "xs" when no tag is shown. */
  lemma {:induction false} CurrentIsLastTag(screens: seq<Entry>, prev: string)
    ensures var tags := ActiveTags(screens);
      Fold(screens, prev) == if tags == [] then prev else tags[|tags| - 1]
  {
    if screens != [] {
      ActiveTagsCons(screens);
      CurrentIsLastTag(screens[1..], Step(prev, screens[0]));
    }
  }

  lemma CurrentBreakPointIsLastTag(screens: seq<Entry>)
    ensures var tags := ActiveTags(screens);
      CurrentBreakPoint(screens) == if tags == [] then "xs" else tags[|tags| - 1]
  {
    CurrentIsLastTag(screens, "xs");
  }
}
