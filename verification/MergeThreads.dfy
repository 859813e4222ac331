/** sort_it with its threads: every call runs its two halves at the same time, down to ranges of one
    element, and merges when both are done. Steps of any thread may follow each other in any order. */
module MergeThreads {
  import opened MergeSort

  /** How far the call that sorts a range has come: not begun; the halves before and from mid under
      way; the first a elements merged, with the rest of the left half up to b and of the right half
      from b still to be merged; done. */
  datatype Task = Todo | Halves(left: Task, right: Task, mid: nat) | Merging(a: nat, b: nat) | Done

  /** The task fits a range of n elements. */
  predicate Fits(t: Task, n: nat)
  {
    match t
    case Todo => true
    case Halves(l, r, mid) => mid <= n && Fits(l, mid) && Fits(r, n - mid)
    case Merging(a, b) => a <= b <= n
    case Done => true
  }

  /** One step of one thread turns the range s of a task t into s'. */
  predicate Step(t: Task, s: seq<Elem>, t': Task, s': seq<Elem>)
    requires Fits(t, |s|)
  {
    match t
    case Todo => s' == s && t' == if |s| < 2 then Done else Halves(Todo, Todo, |s| / 2)
    case Halves(l, r, mid) =>
      || (l == Done && r == Done && s' == s && t' == Merging(0, mid))
      || (|s'| == |s| && t'.Halves? && t'.mid == mid && t'.right == r && s'[mid..] == s[mid..]
          && Step(l, s[..mid], t'.left, s'[..mid]))
      || (|s'| == |s| && t'.Halves? && t'.mid == mid && t'.left == l && s'[..mid] == s[..mid]
          && Step(r, s[mid..], t'.right, s'[mid..]))
    case Merging(a, b) =>
      if a == b || b == |s| then s' == s && t' == Done
      else if s[b].key < s[a].key then
        s' == Rotated(s, a, b) && t' == Merging(a + 1, b + 1)
      else s' == s && t' == Merging(a + 1, b)
    case Done => false
  }

  /** What the range of a task is going to be. */
  function Goal(t: Task, s: seq<Elem>): (g: seq<Elem>)
    requires Fits(t, |s|)
  {
    match t
    case Todo => Sort(s)
    case Halves(l, r, mid) => Merge(Goal(l, s[..mid]), Goal(r, s[mid..]))
    case Merging(a, b) => s[..a] + Merge(s[a..b], s[b..])
    case Done => s
  }

  /** Steps a task still takes at most. */
  function Work(t: Task, n: nat): (w: nat)
    requires Fits(t, n)
    ensures w == 0 <==> t == Done
    decreases n, t
  {
    match t
    case Todo => if n < 2 then 1 else 1 + (n + 2 + Work(Todo, n / 2) + Work(Todo, n - n / 2))
    case Halves(l, r, mid) => n + 2 + Work(l, mid) + Work(r, n - mid)
    case Merging(a, b) => 1 + (n - a)
    case Done => 0
  }

  lemma MergeRound(s: seq<Elem>, a: nat, b: nat)
    requires a < b < |s|
    ensures Merge(s[a..b], s[b..]) ==
            if s[b].key < s[a].key then [s[b]] + Merge(s[a..b], s[b + 1..]) else [s[a]] + Merge(s[a + 1..b], s[b..])
  {
    assert s[a..b][1..] == s[a + 1..b] && s[b..][1..] == s[b + 1..];
  }

  lemma MergeEnds(s: seq<Elem>, a: nat, b: nat)
    requires a <= b <= |s| && (a == b || b == |s|)
    ensures s[..a] + Merge(s[a..b], s[b..]) == s
  {
  }

  /** The element at b taken out and put in front of the range [a, b). */
  function Rotated(s: seq<Elem>, a: nat, b: nat): (r: seq<Elem>)
    requires a <= b < |s|
    ensures |r| == |s|
  {
    s[..a] + ([s[b]] + (s[a..b] + s[b + 1..]))
  }

  lemma RotatedParts(s: seq<Elem>, a: nat, b: nat)
    requires a <= b < |s|
    ensures var r := Rotated(s, a, b);
            r[..a + 1] == s[..a] + [s[b]] && r[a + 1..b + 1] == s[a..b] && r[b + 1..] == s[b + 1..]
  {
    var r := Rotated(s, a, b);
    assert forall k | 0 <= k < |r| :: r[k] == if k < a then s[k] else if k == a then s[b] else if k <= b then s[k - 1] else s[k];
  }

  lemma Grown(x: seq<Elem>, e: Elem, y: seq<Elem>)
    ensures x + ([e] + y) == (x + [e]) + y
  {
  }

  lemma RightGoal(s: seq<Elem>, a: nat, b: nat)
    requires a < b < |s| && s[b].key < s[a].key
    ensures Goal(Merging(a + 1, b + 1), Rotated(s, a, b)) == Goal(Merging(a, b), s)
  {
    hide Merge, Rotated;
    var m := Merge(s[a..b], s[b + 1..]);
    MergeRound(s, a, b);
    RotatedParts(s, a, b);
    Grown(s[..a], s[b], m);
  }

  lemma LeftGoal(s: seq<Elem>, a: nat, b: nat)
    requires a < b < |s| && s[b].key >= s[a].key
    ensures Goal(Merging(a + 1, b), s) == Goal(Merging(a, b), s)
  {
    hide Merge;
    var m := Merge(s[a + 1..b], s[b..]);
    MergeRound(s, a, b);
    assert s[..a + 1] == s[..a] + [s[a]];
    Grown(s[..a], s[a], m);
  }

  lemma MergingGoal(a: nat, b: nat, s: seq<Elem>, t': Task, s': seq<Elem>)
    requires a <= b <= |s| && Step(Merging(a, b), s, t', s')
    ensures |s'| == |s| && Fits(t', |s'|) && Goal(t', s') == Goal(Merging(a, b), s)
    ensures Work(t', |s'|) < Work(Merging(a, b), |s|)
  {
    if a == b || b == |s| {
      MergeEnds(s, a, b);
    } else {
      hide Merge, Rotated, Goal;
      if s[b].key < s[a].key { RightGoal(s, a, b); } else { LeftGoal(s, a, b); }
    }
  }

  /** No step of any thread changes what the range is going to be, and every step is progress. */
  lemma {:induction false} StepGoal(t: Task, s: seq<Elem>, t': Task, s': seq<Elem>)
    requires Fits(t, |s|) && Step(t, s, t', s')
    ensures |s'| == |s| && Fits(t', |s'|) && Goal(t', s') == Goal(t, s) && Work(t', |s'|) < Work(t, |s|)
    decreases t
  {
    hide Merge;
    match t
    case Todo =>
    case Halves(l, r, mid) =>
      if l == Done && r == Done && t' == Merging(0, mid) && s' == s {
        assert s[..0] + Merge(s[..mid], s[mid..]) == Merge(s[..mid], s[mid..]);
        assert s[0..mid] == s[..mid];
      } else if t'.right == r && s'[mid..] == s[mid..] && Step(l, s[..mid], t'.left, s'[..mid]) {
        StepGoal(l, s[..mid], t'.left, s'[..mid]);
      } else {
        StepGoal(r, s[mid..], t'.right, s'[mid..]);
      }
    case Merging(a, b) => MergingGoal(a, b, s, t', s');
    case Done =>
  }

  /** A task that is not done can take a step. */
  lemma {:induction false} StepExists(t: Task, s: seq<Elem>) returns (t': Task, s': seq<Elem>)
    requires Fits(t, |s|) && t != Done
    ensures Step(t, s, t', s')
    decreases t
  {
    t', s' := Done, s;
    match t
    case Todo => t' := if |s| < 2 then Done else Halves(Todo, Todo, |s| / 2);
    case Halves(l, r, mid) =>
      if l == Done && r == Done {
        t' := Merging(0, mid);
      } else if l != Done {
        var l', sl := StepExists(l, s[..mid]);
        StepGoal(l, s[..mid], l', sl);
        t', s' := Halves(l', r, mid), sl + s[mid..];
        assert s'[..mid] == sl && s'[mid..] == s[mid..];
      } else {
        var r', sr := StepExists(r, s[mid..]);
        StepGoal(r, s[mid..], r', sr);
        t', s' := Halves(l, r', mid), s[..mid] + sr;
        assert s'[..mid] == s[..mid] && s'[mid..] == sr;
      }
    case Merging(a, b) =>
      if a == b || b == |s| {
      } else if s[b].key < s[a].key {
        t', s' := Merging(a + 1, b + 1), Rotated(s, a, b);
      } else {
        t' := Merging(a + 1, b);
      }
  }

  // ---------------------------------------------------------------- runs

  datatype Moment = Moment(task: Task, range: seq<Elem>)

  /** A run: each moment follows from the one before by one step of some thread. */
  predicate Run(ms: seq<Moment>)
  {
    && ms != [] && (forall k | 0 <= k < |ms| :: Fits(ms[k].task, |ms[k].range|))
    && (forall k | 0 <= k < |ms| - 1 :: Step(ms[k].task, ms[k].range, ms[k + 1].task, ms[k + 1].range))
  }

  lemma {:induction false} RunGoal(ms: seq<Moment>)
    requires Run(ms)
    ensures var first, last := ms[0], ms[|ms| - 1];
            && Goal(last.task, last.range) == Goal(first.task, first.range)
            && Work(last.task, |last.range|) + |ms| <= Work(first.task, |first.range|) + 1
    decreases |ms|
  {
    hide Goal, Work, Step, Fits;
    if |ms| > 1 {
      var init := ms[..|ms| - 1];
      RunGoal(init);
      var x, y := ms[|ms| - 2], ms[|ms| - 1];
      assert Step(ms[|ms| - 2].task, ms[|ms| - 2].range, ms[|ms| - 2 + 1].task, ms[|ms| - 2 + 1].range);
      StepGoal(x.task, x.range, y.task, y.range);
    }
  }

  /** In whatever order the threads take their steps: sorting ends after at most Work(Todo, n) of them,
      goes on as long as it is not done, and leaves the one ordered stable rearrangement, the result of
      sorting one half after the other. */
  lemma EveryInterleavingSorts(ms: seq<Moment>)
    requires Run(ms) && ms[0].task == Todo
    ensures |ms| <= Work(Todo, |ms[0].range|) + 1
    ensures ms[|ms| - 1].task == Done ==> ms[|ms| - 1].range == Sort(ms[0].range)
    ensures ms[|ms| - 1].task != Done ==> exists m :: Run(ms + [m])
  {
    assert ms != [];
    hide Goal, Sort, Step, Fits, Work, Run;
    RunGoal(ms);
    var last := ms[|ms| - 1];
    if last.task == Done {
      DoneGoal(last.range);
    } else {
      LastFits(ms);
      var t', s' := StepExists(last.task, last.range);
      StepGoal(last.task, last.range, t', s');
      RunOn(ms, Moment(t', s'));
    }
    TodoGoal(ms[0].range);
  }

  lemma DoneGoal(s: seq<Elem>)
    ensures Fits(Done, |s|) && Goal(Done, s) == s
  {
  }

  lemma TodoGoal(s: seq<Elem>)
    ensures Fits(Todo, |s|) && Goal(Todo, s) == Sort(s)
  {
  }

  lemma LastFits(ms: seq<Moment>)
    requires Run(ms)
    ensures Fits(ms[|ms| - 1].task, |ms[|ms| - 1].range|)
  {
  }

  lemma RunOn(ms: seq<Moment>, m: Moment)
    requires Run(ms) && Fits(m.task, |m.range|) && LastStep(ms[|ms| - 1], m)
    ensures Run(ms + [m])
  {
    hide Fits, Step;
  }

  predicate LastStep(x: Moment, y: Moment)
  {
    Fits(x.task, |x.range|) && Step(x.task, x.range, y.task, y.range)
  }
}
