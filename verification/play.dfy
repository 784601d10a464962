/**
 * Runs of user actions, each dispatched to the handler its control is
 * wired to: the start, translate, tip, skip, answered and restart buttons.
 * The swap partners a start draws for its shuffle travel with the action.
 */
module Play {
  import opened Wrappers
  import opened Queue
  import opened Session

  datatype Action = Begin(js: seq<nat>) | Translate | ShowTip | Skip | Answer | Restart

  /** An action whose handler only runs while a session is on screen. */
  predicate InSession(a: Action) {
    a.Translate? || a.ShowTip? || a.Skip? || a.Answer?
  }

  /** An action that moves on to the next question. */
  predicate IsMove(a: Action) {
    a.Skip? || a.Answer?
  }

  /** Every start in `acts` carries a full run's worth of swap partners for `n` questions. */
  predicate RollsFit(n: nat, acts: seq<Action>) {
    forall k :: 0 <= k < |acts| && acts[k].Begin? ==> ValidRolls(n, acts[k].js)
  }

  /** Every action of `acts` runs in a session; none is a start, so any question count fits. */
  predicate AllInSession(acts: seq<Action>)
    ensures AllInSession(acts) ==> forall n: nat :: RollsFit(n, acts)
  {
    forall k :: 0 <= k < |acts| ==> InSession(acts[k])
  }

  /** The number of skips and answers in `acts`. */
  function Moves(acts: seq<Action>): nat {
    if acts == [] then 0 else (if IsMove(acts[0]) then 1 else 0) + Moves(acts[1..])
  }

  function Min(a: int, b: int): int {
    if a <= b then a else b
  }

  /** Capping, then adding more, then capping again is capping once. */
  lemma MinShift(a: int, b: nat, n: int)
    ensures Min(Min(a, n) + b, n) == Min(a + b, n)
  {
  }

  /** One click, handed to its handler. No handler changes the loaded questions. */
  function Step(s: Quiz, a: Action): (r: Quiz)
    requires a.Begin? ==> ValidRolls(|s.data.questions|, a.js)
    ensures r.data.questions == s.data.questions
  {
    match a
    case Begin(js) => BeginSession(s, js)
    case Translate => ToggleTranslation(s)
    case ShowTip => ToggleTip(s)
    case Skip => HandleSkip(s)
    case Answer => HandleAnswered(s)
    case Restart => HandleRestart(s)
  }

  /** The clicks of `acts`, in order. */
  function Run(s: Quiz, acts: seq<Action>): (r: Quiz)
    requires RollsFit(|s.data.questions|, acts)
    ensures r.data.questions == s.data.questions
    decreases |acts|
  {
    if acts == [] then
      s
    else
      var next := Step(s, acts[0]);
      assert RollsFit(|next.data.questions|, acts[1..]) by {
        forall k | 0 <= k < |acts| - 1 && acts[1..][k].Begin?
          ensures ValidRolls(|next.data.questions|, acts[1..][k].js)
        {
          assert acts[1..][k] == acts[k + 1];
        }
      }
      Run(next, acts[1..])
  }

  /** Every handler keeps the invariant. */
  lemma StepKeepsValid(s: Quiz, a: Action)
    requires Valid(s)
    requires a.Begin? ==> ValidRolls(|s.data.questions|, a.js)
    ensures Valid(Step(s, a))
  {
    match a
    case Begin(js) =>
    case Translate => ToggleTranslationKeepsValid(s);
    case ShowTip => ToggleTipKeepsValid(s);
    case Skip => SkipKeepsValid(s);
    case Answer => AnswerKeepsValid(s);
    case Restart =>
  }

  /** Whatever the user clicks, in whatever order, the invariant holds after every click. */
  lemma {:induction false} RunKeepsValid(s: Quiz, acts: seq<Action>)
    requires Valid(s) && RollsFit(|s.data.questions|, acts)
    ensures Valid(Run(s, acts))
    decreases |acts|
  {
    if acts != [] {
      StepKeepsValid(s, acts[0]);
      var next := Step(s, acts[0]);
      assert RollsFit(|next.data.questions|, acts[1..]) by {
        forall k | 0 <= k < |acts| - 1 && acts[1..][k].Begin?
          ensures ValidRolls(|next.data.questions|, acts[1..][k].js)
        {
          assert acts[1..][k] == acts[k + 1];
        }
      }
      RunKeepsValid(next, acts[1..]);
    }
  }

  /**
   * One in-session click from a valid state with a question on screen:
   * a toggle leaves the pointer, the current question and the view alone;
   * a skip or answer presents the next queue entry, or, once the queue is
   * exhausted, shows the summary and keeps the last question current.
   */
  lemma SessionStep(s: Quiz, a: Action)
    requires Valid(s) && s.data.currentIndex.Some? && InSession(a)
    ensures var r := Step(s, a);
      var t := s.session.totalAsked;
      var n := |s.data.questions|;
      var m := if IsMove(a) then 1 else 0;
      && Valid(r)
      && r.data.currentIndex.Some?
      && r.data.queue == s.data.queue
      && r.session.totalAsked == Min(t + m, n)
      && (IsMove(a) && t < n ==> r.data.currentIndex == Some(s.data.queue[t]))
      && (!(IsMove(a) && t < n) ==> r.data.currentIndex == s.data.currentIndex)
      && r.session.answeredCount + r.session.skippedCount == s.session.answeredCount + s.session.skippedCount + m
      && (IsMove(a) && t >= n ==> r.screen.view == SummaryView)
      && (!(IsMove(a) && t >= n) ==> r.screen.view == s.screen.view)
  {
    StepKeepsValid(s, a);
    match a
    case Translate =>
    case ShowTip =>
    case Skip => SkipAdvances(s);
    case Answer => AnswerAdvances(s);
  }

  /** Dropping the first click of an in-session run leaves an in-session run. */
  lemma RestInSession(acts: seq<Action>)
    requires AllInSession(acts) && acts != []
    ensures AllInSession(acts[1..])
  {
    forall k | 0 <= k < |acts| - 1
      ensures InSession(acts[1..][k])
    {
      assert acts[1..][k] == acts[k + 1];
    }
  }

  /**
   * A run of in-session clicks walks the queue in order: after `m` skips
   * and answers the pointer has moved `m` places, never past the end, and
   * a question stays current (by the invariant, the queue entry under the
   * pointer).
   */
  lemma {:induction false} RunWalksQueue(s: Quiz, acts: seq<Action>)
    requires Valid(s) && s.data.currentIndex.Some?
    requires AllInSession(acts)
    ensures var r := Run(s, acts);
      && Valid(r)
      && r.data.currentIndex.Some?
      && r.data.queue == s.data.queue
      && r.session.totalAsked == Min(s.session.totalAsked + Moves(acts), |s.data.questions|)
    decreases |acts|
  {
    if acts != [] {
      var next := Step(s, acts[0]);
      var rest := acts[1..];
      SessionStep(s, acts[0]);
      RestInSession(acts);
      RunWalksQueue(next, rest);
      assert Run(s, acts) == Run(next, rest);
      var m := if IsMove(acts[0]) then 1 else 0;
      var n := |s.data.questions|;
      assert Moves(acts) == m + Moves(rest);
      assert next.session.totalAsked == Min(s.session.totalAsked + m, n);
      assert Run(next, rest).session.totalAsked == Min(next.session.totalAsked + Moves(rest), n);
      MinShift(s.session.totalAsked + m, Moves(rest), n);
    }
  }

  /**
   * In a run of in-session clicks every skip or answer is counted once,
   * as one or the other, and the summary shows exactly when a move was
   * made with the queue exhausted; until then the view is unchanged.
   */
  lemma {:induction false} RunCountsMoves(s: Quiz, acts: seq<Action>)
    requires Valid(s) && s.data.currentIndex.Some?
    requires AllInSession(acts)
    ensures var r := Run(s, acts);
      && r.session.answeredCount + r.session.skippedCount ==
           s.session.answeredCount + s.session.skippedCount + Moves(acts)
      && (s.session.totalAsked + Moves(acts) > |s.data.questions| ==> r.screen.view == SummaryView)
      && (s.session.totalAsked + Moves(acts) <= |s.data.questions| ==> r.screen.view == s.screen.view)
    decreases |acts|
  {
    if acts != [] {
      var next := Step(s, acts[0]);
      var rest := acts[1..];
      SessionStep(s, acts[0]);
      RestInSession(acts);
      RunCountsMoves(next, rest);
      assert Run(s, acts) == Run(next, rest);
      assert Moves(acts) == (if IsMove(acts[0]) then 1 else 0) + Moves(rest);
    }
  }

  /** A prefix of an in-session run is an in-session run. */
  lemma PrefixInSession(acts: seq<Action>, p: nat)
    requires AllInSession(acts) && p <= |acts|
    ensures AllInSession(acts[..p])
  {
    forall k | 0 <= k < p
      ensures InSession(acts[..p][k])
    {
      assert acts[..p][k] == acts[k];
    }
  }

  /**
   * From the first question of a session, the question on screen after
   * `m` skips or answers is queue entry `m` (the last entry once the queue
   * is exhausted).
   */
  lemma ShownAfterMoves(s: Quiz, acts: seq<Action>)
    requires Valid(s) && s.data.currentIndex.Some? && s.session.totalAsked == 1
    requires AllInSession(acts)
    ensures Run(s, acts).data.currentIndex == Some(s.data.queue[Min(Moves(acts), |s.data.questions| - 1)])
  {
    RunWalksQueue(s, acts);
    var r := Run(s, acts);
    var n := |s.data.questions|;
    assert r.session.totalAsked == Min(1 + Moves(acts), n);
    assert PointerValid(r.data, r.session.totalAsked);
    assert r.data.currentIndex == Some(s.data.queue[r.session.totalAsked - 1]);
    assert Min(1 + Moves(acts), n) - 1 == Min(Moves(acts), n - 1);
  }

  /**
   * A whole session shows the questions in queue order: after a start
   * and the clicks holding the first `m` skips or answers, for `m < n`,
   * queue entry `m` is on screen; the queue holds every question exactly
   * once, so every question is shown once.
   */
  lemma FullSessionFollowsQueue(s: Quiz, js: seq<nat>, acts: seq<Action>)
    requires |s.data.questions| > 0 && ValidRolls(|s.data.questions|, js)
    requires AllInSession(acts)
    ensures IsPermutationOfRange(BeginSession(s, js).data.queue, |s.data.questions|)
    ensures forall p :: 0 <= p <= |acts| && Moves(acts[..p]) < |s.data.questions| ==>
      AllInSession(acts[..p]) &&
      Run(BeginSession(s, js), acts[..p]).data.currentIndex == Some(BeginSession(s, js).data.queue[Moves(acts[..p])])
  {
    forall p | 0 <= p <= |acts| && Moves(acts[..p]) < |s.data.questions|
      ensures AllInSession(acts[..p])
      ensures Run(BeginSession(s, js), acts[..p]).data.currentIndex ==
                Some(BeginSession(s, js).data.queue[Moves(acts[..p])])
    {
      PrefixInSession(acts, p);
      ShownAfterMoves(BeginSession(s, js), acts[..p]);
    }
  }

  /**
   * A whole session ends on the summary: after a start with `n` questions
   * and clicks holding exactly `n` skips or answers, the summary is
   * showing, every question was either skipped or answered, the score is
   * between 2 and 5 points per answer and each hint counter is at most one
   * per question.
   */
  lemma FullSessionEndsOnSummary(s: Quiz, js: seq<nat>, acts: seq<Action>)
    requires |s.data.questions| > 0 && ValidRolls(|s.data.questions|, js)
    requires AllInSession(acts)
    requires Moves(acts) == |s.data.questions|
    ensures var r := Run(BeginSession(s, js), acts);
      var n := |s.data.questions|;
      && r.screen.view == SummaryView
      && r.session.totalAsked == n
      && r.session.answeredCount + r.session.skippedCount == n
      && 2 * r.session.answeredCount <= r.session.score <= 5 * r.session.answeredCount
      && r.session.tipShown <= n && r.session.translationsShown <= n
  {
    RunWalksQueue(BeginSession(s, js), acts);
    RunCountsMoves(BeginSession(s, js), acts);
    var r := Run(BeginSession(s, js), acts);
    assert CountersValid(r.session);
  }

  /**
   * Clicking only the hint buttons counts each hint at most once for the
   * question on screen: the translation counter goes up by one exactly
   * when the translation had not been viewed and the run contains a
   * translate click, and likewise for the tip; nothing else in the
   * session or the data moves.
   */
  lemma {:induction false} HintsCountOncePerQuestion(s: Quiz, acts: seq<Action>)
    requires Valid(s) && s.data.currentIndex.Some?
    requires forall k :: 0 <= k < |acts| ==> acts[k].Translate? || acts[k].ShowTip?
    ensures var r := Run(s, acts);
      && r.session.translationsShown ==
           s.session.translationsShown + (if !s.session.hints.translationViewed && Translate in acts then 1 else 0)
      && r.session.tipShown == s.session.tipShown + (if !s.session.hints.tipViewed && ShowTip in acts then 1 else 0)
      && r.data == s.data
      && SameTotals(r.session, s.session)
    decreases |acts|
  {
    if acts != [] {
      var a := acts[0];
      StepKeepsValid(s, a);
      var next := Step(s, a);
      var rest := acts[1..];
      assert forall k :: 0 <= k < |rest| ==> rest[k].Translate? || rest[k].ShowTip? by {
        forall k | 0 <= k < |rest|
          ensures rest[k].Translate? || rest[k].ShowTip?
        {
          assert rest[k] == acts[k + 1];
        }
      }
      HintsCountOncePerQuestion(next, rest);
      assert acts == [a] + rest;
      assert Translate in acts <==> a == Translate || Translate in rest;
      assert ShowTip in acts <==> a == ShowTip || ShowTip in rest;
    }
  }

  /** The counters a hint click must not touch: score, answers, skips and the pointer. */
  predicate SameTotals(a: SessionState, b: SessionState) {
    && a.score == b.score
    && a.answeredCount == b.answeredCount
    && a.skippedCount == b.skippedCount
    && a.totalAsked == b.totalAsked
  }

  /**
   * Once the summary of a finished session is showing, the last question
   * is still current, so an answer (were its button reached) still scores
   * and counts; only the view stays on the summary.
   */
  lemma AnswerAfterSummaryStillScores(s: Quiz)
    requires Valid(s) && s.data.currentIndex.Some? && s.session.totalAsked == |s.data.questions|
    ensures var r := HandleAnswered(s);
      && r.session.answeredCount == s.session.answeredCount + 1
      && r.session.score >= s.session.score + 2
      && r.data.currentIndex == s.data.currentIndex
      && r.screen.view == SummaryView
  {
    AnswerAdvances(s);
  }
}
