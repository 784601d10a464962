/**
 * The quiz controller's state machine: loading, the session counters, the
 * queue pointer `totalAsked`, the current question and the per-question
 * hint flags. The page state the controller reads back or gates on (the
 * active view, the start control, the "hidden" class on each hint block)
 * is kept in a `Screen` record.
 */
module Session {
  import opened Wrappers
  import opened Json
  import opened Validator
  import opened Queue

  /** The four mutually exclusive screens. */
  datatype View = StartView | SessionView | SummaryView | ErrorView

  /** `dataState`: the loaded payload, the play queue and the index of the question on screen. */
  datatype DataState = DataState(topic: Option<string>, questions: seq<Question>, queue: seq<int>, currentIndex: Option<int>)

  /** `currentHintState`: whether each hint has been opened for the question on screen. */
  datatype HintState = HintState(tipViewed: bool, translationViewed: bool)

  /** `sessionState`: the summary counters, the queue pointer and the current hint flags. */
  datatype SessionState = SessionState(
    score: nat,
    answeredCount: nat,
    skippedCount: nat,
    tipShown: nat,
    translationsShown: nat,
    totalAsked: nat,
    hints: HintState)

  /** The page state the controller depends on: active view, start control, hint block visibility. */
  datatype Screen = Screen(view: View, startEnabled: bool, translationVisible: bool, tipVisible: bool)

  /** The whole controller. */
  datatype Quiz = Quiz(data: DataState, session: SessionState, screen: Screen)

  const NoHintsViewed: HintState := HintState(false, false)

  /** The session state before any session and after `resetSessionState`. */
  const FreshSession: SessionState := SessionState(0, 0, 0, 0, 0, 0, NoHintsViewed)

  /**
   * The state once the page has started loading: nothing loaded, start
   * screen shown, start disabled; the hint blocks are as the markup left them.
   */
  function Startup(translationVisible: bool, tipVisible: bool): (r: Quiz)
    ensures r.data.topic.None? && r.data.questions == [] && r.data.queue == [] && r.data.currentIndex.None?
    ensures r.session == FreshSession
    ensures r.screen.view == StartView && !r.screen.startEnabled
    ensures r.screen.translationVisible == translationVisible && r.screen.tipVisible == tipVisible
    ensures Valid(r)
  {
    Quiz(DataState(None, [], [], None), FreshSession, Screen(StartView, false, translationVisible, tipVisible))
  }

  // ---- Invariant ----

  /**
   * A hint's lifetime counter never runs ahead of the questions presented:
   * each presented question adds at most one, and the current question's
   * one is only spent once its hint has been viewed.
   */
  predicate HintCountBounded(shown: nat, viewed: bool, asked: nat) {
    if asked == 0 then shown == 0 && !viewed else shown + (if viewed then 0 else 1) <= asked
  }

  /** The queue is a permutation of the question indices. */
  predicate QueueMatches(d: DataState) {
    |d.queue| == |d.questions| && IsPermutationOfRange(d.queue, |d.questions|)
  }

  /** The pointer stays within the queue, and the current question is the one last taken from it. */
  predicate PointerValid(d: DataState, asked: nat) {
    && asked <= |d.questions|
    && (d.currentIndex.Some? ==> 1 <= asked <= |d.queue| && d.currentIndex.value == d.queue[asked - 1])
  }

  /** Every answer was worth between 2 and 5 points, and the hint counters are bounded. */
  predicate CountersValid(ss: SessionState) {
    && 2 * ss.answeredCount <= ss.score <= 5 * ss.answeredCount
    && HintCountBounded(ss.tipShown, ss.hints.tipViewed, ss.totalAsked)
    && HintCountBounded(ss.translationsShown, ss.hints.translationViewed, ss.totalAsked)
  }

  /** While a question is current, a hint block is only open once that hint has been counted as viewed. */
  predicate HintsConsistent(s: Quiz) {
    s.data.currentIndex.Some? ==>
      && (s.screen.translationVisible ==> s.session.hints.translationViewed)
      && (s.screen.tipVisible ==> s.session.hints.tipViewed)
  }

  /** What holds of every state the controller reaches. */
  predicate Valid(s: Quiz) {
    && QueueMatches(s.data)
    && PointerValid(s.data, s.session.totalAsked)
    && CountersValid(s.session)
    && HintsConsistent(s)
  }

  /** The five summary counters are the same in both states. */
  predicate SameCounters(a: SessionState, b: SessionState) {
    && a.score == b.score
    && a.answeredCount == b.answeredCount
    && a.skippedCount == b.skippedCount
    && a.tipShown == b.tipShown
    && a.translationsShown == b.translationsShown
  }

  // ---- Loading ----

  /** The success branch of the load: store the payload, shuffle a first queue, enable start. */
  function OnLoaded(s: Quiz, data: QuestionSet, js: seq<nat>): (r: Quiz)
    requires ValidRolls(|data.questions|, js)
    ensures r.data.topic == Some(data.topic) && r.data.questions == data.questions
    ensures IsPermutationOfRange(r.data.queue, |data.questions|)
    ensures r.data.currentIndex.None? && r.screen.startEnabled
    ensures r.session == s.session && r.screen.view == s.screen.view
  {
    Quiz(DataState(Some(data.topic), data.questions, ShuffledQueue(|data.questions|, js), None),
         s.session,
         s.screen.(startEnabled := true))
  }

  /** The failure branch (`showError`): error screen, start disabled, data untouched. */
  function OnLoadFailed(s: Quiz): (r: Quiz)
    ensures r.screen.view == ErrorView && !r.screen.startEnabled
    ensures r.data == s.data && r.session == s.session
  {
    s.(screen := s.screen.(view := ErrorView, startEnabled := false))
  }

  /**
   * The load as a whole: `payload` is the parsed response body, or `None`
   * when the request failed, the status was not OK or the body was not JSON;
   * `js` are the swap partners the first shuffle draws.
   */
  function Load(s: Quiz, payload: Option<Json>, js: seq<nat>): (r: Quiz)
    requires payload.Some? && ValidateQuestionData(payload.value).Success? ==>
      ValidRolls(|ValidateQuestionData(payload.value).value.questions|, js)
    ensures r.screen.startEnabled <==> payload.Some? && ValidPayload(payload.value)
    ensures r.screen.startEnabled ==>
      && r.data.questions == ValidateQuestionData(payload.value).value.questions
      && r.data.topic == Some(ValidateQuestionData(payload.value).value.topic)
      && IsPermutationOfRange(r.data.queue, |r.data.questions|)
    ensures !r.screen.startEnabled ==> r.screen.view == ErrorView && r.data == s.data
  {
    if payload.None? then
      OnLoadFailed(s)
    else
      match ValidateQuestionData(payload.value)
      case Failure(_) => OnLoadFailed(s)
      case Success(data) => OnLoaded(s, data, js)
  }

  /**
   * The page load: from the startup state, an accepted payload leaves a
   * valid controller on the start screen with start enabled and at least
   * one question; anything else leaves the error screen with start disabled.
   */
  lemma LoadAtStartup(translationVisible: bool, tipVisible: bool, payload: Option<Json>, js: seq<nat>)
    requires payload.Some? && ValidateQuestionData(payload.value).Success? ==>
      ValidRolls(|ValidateQuestionData(payload.value).value.questions|, js)
    ensures var r := Load(Startup(translationVisible, tipVisible), payload, js);
      && Valid(r)
      && r.session == FreshSession
      && (r.screen.startEnabled ==> r.screen.view == StartView && |r.data.questions| > 0)
      && (!r.screen.startEnabled ==> r.screen.view == ErrorView && r.data.questions == [])
  {
    var r := Load(Startup(translationVisible, tipVisible), payload, js);
    assert IsPermutationOfRange(r.data.queue, |r.data.questions|);
    PermutationHasEachIndexOnce(r.data.queue, |r.data.questions|);
  }

  // ---- The session engine ----

  /** `resetSessionState`: zero every counter and the pointer, clear the hint flags, reshuffle. */
  function ResetSessionState(s: Quiz, js: seq<nat>): (r: Quiz)
    requires ValidRolls(|s.data.questions|, js)
    ensures r.session == FreshSession
    ensures r.data.topic == s.data.topic && r.data.questions == s.data.questions
    ensures IsPermutationOfRange(r.data.queue, |s.data.questions|) && r.data.currentIndex.None?
    ensures r.screen == s.screen
    ensures Valid(r)
  {
    var n := |s.data.questions|;
    var queue := if n > 0 then ShuffledQueue(n, js) else [];
    var r := Quiz(s.data.(queue := queue, currentIndex := None), FreshSession, s.screen);
    PermutationHasEachIndexOnce(queue, n);
    r
  }

  /**
   * `getNextQuestionIndex`: while the queue has questions left, take the one
   * at the pointer, make it current, advance the pointer and clear the hint
   * flags; once it is exhausted, answer `None` and change nothing. A read
   * past the end of a short queue gives `undefined`, which every caller's
   * `== null` test treats like `null`.
   */
  function GetNextQuestionIndex(s: Quiz): (r: (Quiz, Option<int>))
    ensures s.session.totalAsked >= |s.data.questions| ==> r == (s, None)
    ensures s.session.totalAsked < |s.data.questions| ==>
      && r.0.session.totalAsked == s.session.totalAsked + 1
      && r.0.data.currentIndex == r.1
      && (s.session.totalAsked < |s.data.queue| <==> r.1.Some?)
      && (r.1.Some? ==> r.1.value == s.data.queue[s.session.totalAsked])
      && r.0.session.hints == NoHintsViewed
    ensures r.0.data.(currentIndex := s.data.currentIndex) == s.data
    ensures SameCounters(s.session, r.0.session) && r.0.screen == s.screen
  {
    if s.session.totalAsked >= |s.data.questions| then
      (s, None)
    else
      var position := s.session.totalAsked;
      var next := if position < |s.data.queue| then Some(s.data.queue[position]) else None;
      (Quiz(s.data.(currentIndex := next),
            s.session.(totalAsked := position + 1, hints := NoHintsViewed),
            s.screen),
       next)
  }

  /**
   * `loadNextQuestion`: present the next question with both hint blocks
   * hidden, or show the summary when there is none. Rendering reads the
   * question's fields before it touches the hint blocks, so an index with
   * no question behind it throws there and leaves them as they were.
   */
  function LoadNextQuestion(s: Quiz): (r: Quiz)
    ensures SameCounters(s.session, r.session)
    ensures r.data.(currentIndex := s.data.currentIndex) == s.data
    ensures s.session.totalAsked >= |s.data.questions| ==>
      r.data == s.data && r.session == s.session && r.screen == s.screen.(view := SummaryView)
    ensures s.session.totalAsked < |s.data.questions| ==>
      && r.session.totalAsked == s.session.totalAsked + 1
      && r.session.hints == NoHintsViewed
    ensures s.session.totalAsked < |s.data.questions| && s.session.totalAsked < |s.data.queue| ==>
      r.data.currentIndex == Some(s.data.queue[s.session.totalAsked])
    ensures s.session.totalAsked < |s.data.questions| && s.session.totalAsked < |s.data.queue|
            && 0 <= s.data.queue[s.session.totalAsked] < |s.data.questions| ==>
      r.screen == s.screen.(translationVisible := false, tipVisible := false)
    ensures s.session.totalAsked < |s.data.questions| && s.session.totalAsked >= |s.data.queue| ==>
      r.data.currentIndex.None? && r.screen == s.screen.(view := SummaryView)
    ensures s.session.totalAsked < |s.data.questions| && s.session.totalAsked < |s.data.queue|
            && !(0 <= s.data.queue[s.session.totalAsked] < |s.data.questions|) ==>
      r.screen == s.screen
  {
    var (t, next) := GetNextQuestionIndex(s);
    if next.None? then
      t.(screen := t.screen.(view := SummaryView))
    else if 0 <= next.value < |t.data.questions| then
      t.(screen := t.screen.(translationVisible := false, tipVisible := false))
    else
      t
  }

  /**
   * `after` is `before` moved on by one `loadNextQuestion`: either the next
   * queue entry is current, with fresh, hidden hints, or the queue was
   * exhausted and the summary shows, with nothing else changed.
   */
  predicate Advanced(before: Quiz, after: Quiz)
    requires Valid(before)
  {
    var t := before.session.totalAsked;
    && after.data.(currentIndex := before.data.currentIndex) == before.data
    && if t < |before.data.questions| then
         && after.session.totalAsked == t + 1
         && after.data.currentIndex == Some(before.data.queue[t])
         && after.session.hints == NoHintsViewed
         && after.screen == before.screen.(translationVisible := false, tipVisible := false)
       else
         && after.session.totalAsked == t
         && after.data.currentIndex == before.data.currentIndex
         && after.session.hints == before.session.hints
         && after.screen == before.screen.(view := SummaryView)
  }

  /** Loading the next question does exactly what `Advanced` describes and leaves the counters alone. */
  lemma LoadNextQuestionAdvances(s: Quiz)
    requires Valid(s)
    ensures Advanced(s, LoadNextQuestion(s)) && SameCounters(s.session, LoadNextQuestion(s).session)
  {
    PermutationHasEachIndexOnce(s.data.queue, |s.data.questions|);
  }

  /** Loading the next question keeps the invariant. */
  lemma LoadNextQuestionKeepsValid(s: Quiz)
    requires Valid(s)
    ensures Valid(LoadNextQuestion(s))
  {
    LoadNextQuestionAdvances(s);
  }

  /**
   * `beginSession`: nothing happens without questions; otherwise a fresh
   * session starts on a freshly shuffled queue and presents its first entry.
   */
  function BeginSession(s: Quiz, js: seq<nat>): (r: Quiz)
    requires ValidRolls(|s.data.questions|, js)
    ensures |s.data.questions| == 0 ==> r == s
    ensures |s.data.questions| > 0 ==>
      && Valid(r)
      && r.session.(totalAsked := 0) == FreshSession
      && r.session.totalAsked == 1
      && IsPermutationOfRange(r.data.queue, |s.data.questions|)
      && r.data.currentIndex == Some(r.data.queue[0])
      && r.data.topic == s.data.topic && r.data.questions == s.data.questions
      && r.screen == s.screen.(view := SessionView, translationVisible := false, tipVisible := false)
  {
    if |s.data.questions| == 0 then
      s
    else
      var reset := ResetSessionState(s, js);
      var started := reset.(screen := reset.screen.(view := SessionView));
      LoadNextQuestionAdvances(started);
      LoadNextQuestionKeepsValid(started);
      LoadNextQuestion(started)
  }

  /** Points for answering: 2, plus 2 if the tip was not viewed, plus 1 if the translation was not viewed. */
  function Points(h: HintState): (p: nat)
    ensures 2 <= p <= 5
    ensures !h.tipViewed && !h.translationViewed ==> p == 5
    ensures !h.tipViewed && h.translationViewed ==> p == 4
    ensures h.tipViewed && !h.translationViewed ==> p == 3
    ensures h.tipViewed && h.translationViewed ==> p == 2
  {
    var basePoints := 2;
    var noTipBonus := if h.tipViewed then 0 else 2;
    var noTranslationBonus := if h.translationViewed then 0 else 1;
    basePoints + noTipBonus + noTranslationBonus
  }

  /**
   * `toggleTranslation`: with a current question, flip the translation
   * block; the lifetime counter goes up only when it goes from hidden to
   * shown while the translation has not been viewed for this question.
   */
  function ToggleTranslation(s: Quiz): (r: Quiz)
    ensures s.data.currentIndex.None? ==> r == s
    ensures s.data.currentIndex.Some? ==> r.screen.translationVisible == !s.screen.translationVisible
    ensures r.session.translationsShown == s.session.translationsShown + 1 <==>
      s.data.currentIndex.Some? && !s.screen.translationVisible && !s.session.hints.translationViewed
    ensures r.session.translationsShown == s.session.translationsShown ||
            r.session.translationsShown == s.session.translationsShown + 1
    ensures r.session.hints.translationViewed <==>
      s.session.hints.translationViewed || (s.data.currentIndex.Some? && !s.screen.translationVisible)
    ensures r.data == s.data && r.screen.(translationVisible := s.screen.translationVisible) == s.screen
    ensures r.session.(translationsShown := s.session.translationsShown,
                       hints := r.session.hints.(translationViewed := s.session.hints.translationViewed)) == s.session
  {
    if s.data.currentIndex.None? then
      s
    else
      var willShow := !s.screen.translationVisible;
      var shown := s.(screen := s.screen.(translationVisible := willShow));
      if willShow && !s.session.hints.translationViewed then
        shown.(session := s.session.(hints := s.session.hints.(translationViewed := true),
                                     translationsShown := s.session.translationsShown + 1))
      else
        shown
  }

  /** `toggleTip`: the same as `toggleTranslation`, for the tip block and `tipShown`. */
  function ToggleTip(s: Quiz): (r: Quiz)
    ensures s.data.currentIndex.None? ==> r == s
    ensures s.data.currentIndex.Some? ==> r.screen.tipVisible == !s.screen.tipVisible
    ensures r.session.tipShown == s.session.tipShown + 1 <==>
      s.data.currentIndex.Some? && !s.screen.tipVisible && !s.session.hints.tipViewed
    ensures r.session.tipShown == s.session.tipShown || r.session.tipShown == s.session.tipShown + 1
    ensures r.session.hints.tipViewed <==>
      s.session.hints.tipViewed || (s.data.currentIndex.Some? && !s.screen.tipVisible)
    ensures r.data == s.data && r.screen.(tipVisible := s.screen.tipVisible) == s.screen
    ensures r.session.(tipShown := s.session.tipShown,
                       hints := r.session.hints.(tipViewed := s.session.hints.tipViewed)) == s.session
  {
    if s.data.currentIndex.None? then
      s
    else
      var willShow := !s.screen.tipVisible;
      var shown := s.(screen := s.screen.(tipVisible := willShow));
      if willShow && !s.session.hints.tipViewed then
        shown.(session := s.session.(hints := s.session.hints.(tipViewed := true),
                                     tipShown := s.session.tipShown + 1))
      else
        shown
  }

  /** Showing or hiding the translation keeps the invariant: the counter moves only with the viewed flag. */
  lemma ToggleTranslationKeepsValid(s: Quiz)
    requires Valid(s)
    ensures Valid(ToggleTranslation(s))
  {
    if s.data.currentIndex.Some? {
      assert 1 <= s.session.totalAsked;
    }
  }

  /** Showing or hiding the tip keeps the invariant. */
  lemma ToggleTipKeepsValid(s: Quiz)
    requires Valid(s)
    ensures Valid(ToggleTip(s))
  {
    if s.data.currentIndex.Some? {
      assert 1 <= s.session.totalAsked;
    }
  }

  /** The session state once a skip has been counted, before moving on. */
  function Skipped(ss: SessionState): (r: SessionState)
    ensures r.skippedCount == ss.skippedCount + 1
    ensures r.(skippedCount := ss.skippedCount) == ss
  {
    ss.(skippedCount := ss.skippedCount + 1)
  }

  /** `handleSkip`: with a current question, count a skip and move on; the score is untouched. */
  function HandleSkip(s: Quiz): (r: Quiz)
    ensures s.data.currentIndex.None? ==> r == s
    ensures s.data.currentIndex.Some? ==>
      && r.session.skippedCount == s.session.skippedCount + 1
      && r.session.score == s.session.score && r.session.answeredCount == s.session.answeredCount
      && r.session.tipShown == s.session.tipShown
      && r.session.translationsShown == s.session.translationsShown
    ensures r.data.(currentIndex := s.data.currentIndex) == s.data
  {
    if s.data.currentIndex.None? then
      s
    else
      LoadNextQuestion(s.(session := Skipped(s.session)))
  }

  /** Counting a skip keeps the invariant. */
  lemma SkippingKeepsValid(s: Quiz)
    requires Valid(s)
    ensures Valid(s.(session := Skipped(s.session)))
  {
  }

  /** A skip moves the session on by one question. */
  lemma SkipAdvances(s: Quiz)
    requires Valid(s) && s.data.currentIndex.Some?
    ensures Advanced(s, HandleSkip(s))
  {
    SkippingKeepsValid(s);
    LoadNextQuestionAdvances(s.(session := Skipped(s.session)));
  }

  /** A skip keeps the invariant. */
  lemma SkipKeepsValid(s: Quiz)
    requires Valid(s)
    ensures Valid(HandleSkip(s))
  {
    if s.data.currentIndex.Some? {
      SkippingKeepsValid(s);
      LoadNextQuestionKeepsValid(s.(session := Skipped(s.session)));
    }
  }

  /** The session state once an answer has been scored, before moving on. */
  function Scored(ss: SessionState): (r: SessionState)
    ensures r.score == ss.score + Points(ss.hints) && r.answeredCount == ss.answeredCount + 1
    ensures r.(score := ss.score, answeredCount := ss.answeredCount) == ss
  {
    ss.(score := ss.score + Points(ss.hints), answeredCount := ss.answeredCount + 1)
  }

  /** `handleAnswered`: with a current question, add its points, count an answer and move on. */
  function HandleAnswered(s: Quiz): (r: Quiz)
    ensures s.data.currentIndex.None? ==> r == s
    ensures s.data.currentIndex.Some? ==>
      && r.session.score == s.session.score + Points(s.session.hints)
      && s.session.score + 2 <= r.session.score <= s.session.score + 5
      && r.session.answeredCount == s.session.answeredCount + 1
      && r.session.skippedCount == s.session.skippedCount
      && r.session.tipShown == s.session.tipShown
      && r.session.translationsShown == s.session.translationsShown
    ensures r.data.(currentIndex := s.data.currentIndex) == s.data
  {
    if s.data.currentIndex.None? then
      s
    else
      LoadNextQuestion(s.(session := Scored(s.session)))
  }

  /** Scoring an answer keeps the invariant: each answer adds between 2 and 5 points. */
  lemma ScoringKeepsValid(s: Quiz)
    requires Valid(s)
    ensures Valid(s.(session := Scored(s.session)))
  {
    var p := Points(s.session.hints);
    assert 2 * (s.session.answeredCount + 1) <= s.session.score + p <= 5 * (s.session.answeredCount + 1);
  }

  /** An answer moves the session on by one question. */
  lemma AnswerAdvances(s: Quiz)
    requires Valid(s) && s.data.currentIndex.Some?
    ensures Advanced(s, HandleAnswered(s))
  {
    ScoringKeepsValid(s);
    LoadNextQuestionAdvances(s.(session := Scored(s.session)));
  }

  /** An answer keeps the invariant. */
  lemma AnswerKeepsValid(s: Quiz)
    requires Valid(s)
    ensures Valid(HandleAnswered(s))
  {
    if s.data.currentIndex.Some? {
      ScoringKeepsValid(s);
      LoadNextQuestionKeepsValid(s.(session := Scored(s.session)));
    }
  }

  /** `handleRestart`: back to the start screen with start enabled; the next session is begun from there. */
  function HandleRestart(s: Quiz): (r: Quiz)
    ensures r.screen.view == StartView && r.screen.startEnabled
    ensures r.data == s.data && r.session == s.session
    ensures r.screen.(view := s.screen.view, startEnabled := s.screen.startEnabled) == s.screen
  {
    s.(screen := s.screen.(view := StartView, startEnabled := true))
  }

  /** The remaining count shown in the status line: questions not yet presented, never negative. */
  function Remaining(s: Quiz): (n: nat)
    ensures n <= |s.data.questions|
    ensures n == 0 <==> s.session.totalAsked >= |s.data.questions|
    ensures s.session.totalAsked <= |s.data.questions| ==> n + s.session.totalAsked == |s.data.questions|
  {
    var remaining := |s.data.questions| - s.session.totalAsked;
    if remaining > 0 then remaining else 0
  }
}
