/**
 * The session logic of endless mode (src/app/components/study/EndlessInterface.tsx):
 * the review queue that recycles missed cards and refills itself from the
 * shuffled deck, the score and counters a submission updates, and the
 * queue a reloaded page restores. The two `Math.random` uses become
 * parameters: one roll for the reinsertion offset and the draws of the
 * refill shuffle.
 */
module EndlessSession {
  import opened Types
  import FuzzyMatch
  import Sm2
  import Shuffle

  /** The queue is refilled whenever it would hold fewer cards than this. */
  const MinQueue: int := 3

  // ---------------------------------------------------------------------
  // advanceQueue
  // ---------------------------------------------------------------------

  /** `slice(1)`: everything after the front card (nothing for an empty queue). */
  function Tail(q: seq<Card>): (r: seq<Card>)
    ensures |q| > 0 ==> [q[0]] + r == q
    ensures |q| == 0 ==> r == []
  {
    if |q| == 0 then [] else q[1..]
  }

  /** `Math.min(3 + Math.floor(Math.random() * 3), length)`. */
  function InsertPos(offsetRoll: real, len: nat): (p: nat)
    requires 0.0 <= offsetRoll < 1.0
    ensures p <= len && p <= 5
    ensures p == len || 3 <= p
    ensures len >= 3 ==> 3 <= p
  {
    var r := Shuffle.Pick(offsetRoll, 2);
    if 3 + r <= len then 3 + r else len
  }

  function InsertAt(s: seq<Card>, p: nat, x: Card): (r: seq<Card>)
    requires p <= |s|
    ensures |r| == |s| + 1 && r[p] == x
    ensures r[..p] == s[..p] && r[p + 1..] == s[p..]
  {
    s[..p] + [x] + s[p..]
  }

  /** What the deck refill draws: enough random numbers for one shuffle of it. */
  predicate ValidDraws(cards: seq<Card>, offsetRoll: real, rolls: seq<real>) {
    0.0 <= offsetRoll < 1.0 && |cards| <= |rolls| + 1 && Shuffle.ValidRolls(rolls)
  }

  /**
   * advanceQueue: drop the front card; after a wrong answer put the failed
   * card back three to five places on; append a shuffled copy of the deck
   * if fewer than three cards remain.
   */
  function AdvanceQueue(prev: seq<Card>, wasIncorrect: bool, failedCard: Option<Card>,
                        cards: seq<Card>, offsetRoll: real, rolls: seq<real>): (q: seq<Card>)
    requires ValidDraws(cards, offsetRoll, rolls)
  {
    var withFailed := Requeued(prev, wasIncorrect, failedCard, offsetRoll);
    if |withFailed| < MinQueue then withFailed + Shuffle.Shuffle(cards, rolls) else withFailed
  }

  /** The queue a reinsertion yields before any refill. */
  function Requeued(prev: seq<Card>, wasIncorrect: bool, failedCard: Option<Card>, offsetRoll: real): (s: seq<Card>)
    requires 0.0 <= offsetRoll < 1.0
    ensures |s| == |Tail(prev)| + (if wasIncorrect && failedCard.Some? then 1 else 0)
  {
    var rest := Tail(prev);
    if wasIncorrect && failedCard.Some? then InsertAt(rest, InsertPos(offsetRoll, |rest|), failedCard.value)
    else rest
  }

  /**
   * The shape of the new queue: the old queue without its front card, the
   * failed card (if any) at the drawn position, the other cards in their
   * old order, and a permutation of the deck appended exactly when fewer
   * than three cards were left.
   */
  lemma AdvanceQueueShape(prev: seq<Card>, wasIncorrect: bool, failedCard: Option<Card>,
                          cards: seq<Card>, offsetRoll: real, rolls: seq<real>)
    requires ValidDraws(cards, offsetRoll, rolls)
    ensures var q := AdvanceQueue(prev, wasIncorrect, failedCard, cards, offsetRoll, rolls);
      var rest := Tail(prev);
      var s := Requeued(prev, wasIncorrect, failedCard, offsetRoll);
      && q[..|s|] == s
      && (|s| < MinQueue ==> multiset(q[|s|..]) == multiset(cards) && |q| == |s| + |cards|)
      && (|s| >= MinQueue ==> |q| == |s|)
      && (!(wasIncorrect && failedCard.Some?) ==> s == rest)
      && (wasIncorrect && failedCard.Some? ==>
            var p := InsertPos(offsetRoll, |rest|);
            && s[p] == failedCard.value
            && s[..p] + s[p + 1..] == rest
            && p <= 5 && (p == |rest| || 3 <= p))
  {
    var s := Requeued(prev, wasIncorrect, failedCard, offsetRoll);
    var q := AdvanceQueue(prev, wasIncorrect, failedCard, cards, offsetRoll, rolls);
    assert q == if |s| < MinQueue then s + Shuffle.Shuffle(cards, rolls) else s;
    if |s| < MinQueue {
      assert q[|s|..] == Shuffle.Shuffle(cards, rolls);
      Shuffle.ShufflePermutes(cards, rolls);
    }
    if wasIncorrect && failedCard.Some? {
      var rest := Tail(prev);
      var p := InsertPos(offsetRoll, |rest|);
      assert s[..p] + s[p + 1..] == rest[..p] + rest[p..];
      assert rest[..p] + rest[p..] == rest;
    }
  }

  /**
   * The queue never runs dry while the deck has cards, and it holds at
   * least three cards whenever the deck does.
   */
  lemma AdvanceQueueLength(prev: seq<Card>, wasIncorrect: bool, failedCard: Option<Card>,
                           cards: seq<Card>, offsetRoll: real, rolls: seq<real>)
    requires ValidDraws(cards, offsetRoll, rolls)
    ensures |cards| > 0 ==> |AdvanceQueue(prev, wasIncorrect, failedCard, cards, offsetRoll, rolls)| > 0
    ensures |cards| >= MinQueue ==> |AdvanceQueue(prev, wasIncorrect, failedCard, cards, offsetRoll, rolls)| >= MinQueue
  {
    AdvanceQueueShape(prev, wasIncorrect, failedCard, cards, offsetRoll, rolls);
  }

  /** With a one-card deck the queue holds a single card after a correct answer. */
  lemma SmallDeckShortQueue(card: Card, rolls: seq<real>)
    requires Shuffle.ValidRolls(rolls)
    ensures |AdvanceQueue([card], false, None, [card], 0.0, rolls)| == 1
  {
    AdvanceQueueShape([card], false, None, [card], 0.0, rolls);
  }

  /** The requeued cards are the old queue's and the failed card. */
  lemma RequeuedFrom(prev: seq<Card>, wasIncorrect: bool, failedCard: Option<Card>, offsetRoll: real, c: Card)
    requires 0.0 <= offsetRoll < 1.0
    requires c in Requeued(prev, wasIncorrect, failedCard, offsetRoll)
    ensures c in prev || (failedCard.Some? && c == failedCard.value)
  {
    var rest := Tail(prev);
    if wasIncorrect && failedCard.Some? {
      var p := InsertPos(offsetRoll, |rest|);
      assert Requeued(prev, wasIncorrect, failedCard, offsetRoll) == rest[..p] + [failedCard.value] + rest[p..];
      assert c in rest[..p] || c == failedCard.value || c in rest[p..];
    }
    assert c in rest ==> c in prev;
  }

  /** The refill only draws deck cards. */
  lemma RefillFromDeck(cards: seq<Card>, rolls: seq<real>, c: Card)
    requires |cards| <= |rolls| + 1 && Shuffle.ValidRolls(rolls)
    requires c in Shuffle.Shuffle(cards, rolls)
    ensures c in cards
  {
    Shuffle.ShufflePermutes(cards, rolls);
    assert c in multiset(Shuffle.Shuffle(cards, rolls));
  }

  /** A queue made of deck cards stays one: nothing but deck cards is ever queued. */
  lemma AdvanceQueueDrawsFromDeck(prev: seq<Card>, wasIncorrect: bool, failedCard: Option<Card>,
                                  cards: seq<Card>, offsetRoll: real, rolls: seq<real>)
    requires ValidDraws(cards, offsetRoll, rolls)
    requires forall k :: 0 <= k < |prev| ==> prev[k] in cards
    requires failedCard.Some? ==> failedCard.value in cards
    ensures forall c :: c in AdvanceQueue(prev, wasIncorrect, failedCard, cards, offsetRoll, rolls) ==> c in cards
  {
    var s := Requeued(prev, wasIncorrect, failedCard, offsetRoll);
    var refill := Shuffle.Shuffle(cards, rolls);
    var q := AdvanceQueue(prev, wasIncorrect, failedCard, cards, offsetRoll, rolls);
    assert q == if |s| < MinQueue then s + refill else s;
    forall c | c in q
      ensures c in cards
    {
      if c in s {
        RequeuedFrom(prev, wasIncorrect, failedCard, offsetRoll, c);
      } else {
        RefillFromDeck(cards, rolls, c);
      }
    }
  }

  // ---------------------------------------------------------------------
  // handleSubmit
  // ---------------------------------------------------------------------

  /** The running totals of an endless session. */
  datatype Stats = Stats(score: int, correctAnswers: int, incorrectAnswers: int, totalCardsSeen: int)

  const FreshStats: Stats := Stats(0, 0, 0, 0)

  /** `!input.trim()`: the answer box holds nothing but whitespace. */
  predicate IsBlank(input: string) {
    FuzzyMatch.Trim(input) == ""
  }

  /** Trimming leaves nothing exactly when every character is whitespace. */
  lemma BlankIffAllSpace(input: string)
    ensures IsBlank(input) <==> forall k :: 0 <= k < |input| ==> FuzzyMatch.IsSpaceChar(input[k])
  {
    var lead := FuzzyMatch.DropLeadingSpaces(input);
    if |lead| > 0 {
      assert !FuzzyMatch.IsSpaceChar(input[|input| - |lead|]);
    }
  }

  /** The score and counters after an answer of the given quality grade. */
  function ApplyGrade(st: Stats, quality: int): (r: Stats)
    ensures r.totalCardsSeen == st.totalCardsSeen + 1
    ensures quality >= 4 ==>
      r == st.(score := r.score, correctAnswers := st.correctAnswers + 1, totalCardsSeen := r.totalCardsSeen)
      && r.score == st.score + (if quality == 5 then 10 else 5)
    ensures quality < 4 ==>
      r == st.(score := r.score, incorrectAnswers := st.incorrectAnswers + 1, totalCardsSeen := r.totalCardsSeen)
      && r.score >= 0
      && (st.score >= 3 ==> r.score == st.score - 3)
      && (st.score < 3 ==> r.score == 0)
  {
    var isCorrect := quality >= 4;
    var isPerfect := quality == 5;
    var seen := st.totalCardsSeen + 1;
    if isCorrect then
      Stats(st.score + (if isPerfect then 10 else 5), st.correctAnswers + 1, st.incorrectAnswers, seen)
    else
      Stats(if st.score - 3 >= 0 then st.score - 3 else 0, st.correctAnswers, st.incorrectAnswers + 1, seen)
  }

  /** The grade an answer earns: the quality ladder over the fuzzy score. */
  function AnswerQuality(input: string, back: string): (q: int)
    ensures 0 <= q <= 5
    ensures q == 5 <==> FuzzyMatch.EvaluateAnswer(input, back) >= 0.95
    ensures q >= 4 <==> FuzzyMatch.EvaluateAnswer(input, back) >= 0.80
  {
    var score := FuzzyMatch.EvaluateAnswer(input, back);
    var q := Sm2.QualityGrade(score);
    assert q >= 5 <==> score >= Sm2.GradeThreshold(5);
    assert q >= 4 <==> score >= Sm2.GradeThreshold(4);
    q
  }

  /**
   * handleSubmit: a blank answer changes nothing. Any other answer counts
   * one more card seen and, by its fuzzy score against the card's back,
   * earns 10 points (score at least 0.95) or 5 points (at least 0.80) and a
   * correct answer, or costs 3 points, never going below 0, and counts an
   * incorrect answer.
   */
  function HandleSubmit(st: Stats, input: string, card: Card): (r: Stats)
    ensures IsBlank(input) ==> r == st
    ensures !IsBlank(input) ==> r.totalCardsSeen == st.totalCardsSeen + 1
    ensures var f := FuzzyMatch.EvaluateAnswer(input, card.back);
      !IsBlank(input) && f >= 0.95 ==>
        r.score == st.score + 10 && r.correctAnswers == st.correctAnswers + 1
        && r.incorrectAnswers == st.incorrectAnswers
    ensures var f := FuzzyMatch.EvaluateAnswer(input, card.back);
      !IsBlank(input) && 0.80 <= f < 0.95 ==>
        r.score == st.score + 5 && r.correctAnswers == st.correctAnswers + 1
        && r.incorrectAnswers == st.incorrectAnswers
    ensures var f := FuzzyMatch.EvaluateAnswer(input, card.back);
      !IsBlank(input) && f < 0.80 ==>
        r.score == (if st.score - 3 >= 0 then st.score - 3 else 0)
        && r.incorrectAnswers == st.incorrectAnswers + 1 && r.correctAnswers == st.correctAnswers
  {
    if IsBlank(input) then st else ApplyGrade(st, AnswerQuality(input, card.back))
  }

  /** An answer whose normal form is not empty holds a word character, so it is not blank. */
  lemma NormalizedNotBlank(input: string)
    requires FuzzyMatch.Normalize(input) != ""
    ensures !IsBlank(input)
  {
    FuzzyMatch.NormalizedHasWordChar(input);
    var k :| 0 <= k < |input| && FuzzyMatch.IsWordChar(input[k]);
    WordCharNotBlank(input, k);
  }

  /** An answer with a word character is not blank. */
  lemma WordCharNotBlank(input: string, k: int)
    requires 0 <= k < |input| && FuzzyMatch.IsWordChar(input[k])
    ensures !IsBlank(input)
  {
    BlankIffAllSpace(input);
  }

  /** An answer identical to the card's back, once normalised, is a perfect answer worth 10 points. */
  lemma ExactAnswerScoresTen(st: Stats, input: string, card: Card)
    requires FuzzyMatch.Normalize(card.back) != "" && FuzzyMatch.Normalize(input) == FuzzyMatch.Normalize(card.back)
    ensures HandleSubmit(st, input, card).score == st.score + 10
    ensures HandleSubmit(st, input, card).correctAnswers == st.correctAnswers + 1
  {
    NormalizedNotBlank(input);
  }

  /** The totals of a session: nothing negative, every graded card counted exactly once. */
  predicate StatsInv(st: Stats) {
    && st.score >= 0 && st.correctAnswers >= 0 && st.incorrectAnswers >= 0
    && st.correctAnswers + st.incorrectAnswers == st.totalCardsSeen
    && st.score <= 10 * st.correctAnswers
  }

  /** The answers submitted in order against their cards. */
  function SubmitAll(st: Stats, answers: seq<(string, Card)>): Stats
    decreases |answers|
  {
    if answers == [] then st else SubmitAll(HandleSubmit(st, answers[0].0, answers[0].1), answers[1..])
  }

  /** One graded answer keeps the totals consistent. */
  lemma ApplyGradeKeepsInv(st: Stats, quality: int)
    requires StatsInv(st)
    ensures StatsInv(ApplyGrade(st, quality))
  {
  }

  /** Any sequence of submissions keeps the totals consistent. */
  lemma {:induction false} SubmitAllKeepsInv(st: Stats, answers: seq<(string, Card)>)
    requires StatsInv(st)
    ensures StatsInv(SubmitAll(st, answers))
    ensures SubmitAll(st, answers).totalCardsSeen >= st.totalCardsSeen
    decreases |answers|
  {
    if answers != [] {
      var next := HandleSubmit(st, answers[0].0, answers[0].1);
      if !IsBlank(answers[0].0) {
        ApplyGradeKeepsInv(st, AnswerQuality(answers[0].0, answers[0].1.back));
      }
      SubmitAllKeepsInv(next, answers[1..]);
    }
  }

  /** In a fresh session the score is never negative and the counters add up to the cards seen. */
  lemma FreshSessionInv(answers: seq<(string, Card)>)
    ensures var st := SubmitAll(FreshStats, answers);
      st.score >= 0 && st.correctAnswers + st.incorrectAnswers == st.totalCardsSeen
  {
    SubmitAllKeepsInv(FreshStats, answers);
  }

  // ---------------------------------------------------------------------
  // getSavedSession
  // ---------------------------------------------------------------------

  /** Whether some card of the deck has this id. */
  predicate HasId(cards: seq<Card>, id: string) {
    exists k :: 0 <= k < |cards| && cards[k].id == id
  }

  /** Position k is the last card of the deck carrying this id. */
  predicate IsLastWithId(cards: seq<Card>, id: string, k: int)
    requires 0 <= k < |cards|
  {
    cards[k].id == id && forall k' :: k < k' < |cards| ==> cards[k'].id != id
  }

  /**
   * `new Map(cards.map(c => [c.id, c])).get(id)`: a map built from the
   * deck keeps the last card with each id.
   */
  function CardById(cards: seq<Card>, id: string): (r: Option<Card>)
    ensures r.Some? <==> HasId(cards, id)
    ensures r.Some? ==> r.value.id == id && r.value in cards
  {
    if |cards| == 0 then None
    else if cards[|cards| - 1].id == id then Some(cards[|cards| - 1])
    else
      var r := CardById(cards[..|cards| - 1], id);
      assert HasId(cards, id) ==> HasId(cards[..|cards| - 1], id) by {
        if HasId(cards, id) {
          var k :| 0 <= k < |cards| && cards[k].id == id;
          assert cards[..|cards| - 1][k].id == id;
        }
      }
      r
  }

  /** Of several cards with the same id the lookup finds the last one, as a later map entry replaces an earlier one. */
  lemma {:induction false} CardByIdIsLast(cards: seq<Card>, id: string)
    ensures CardById(cards, id).Some? ==>
      exists k :: 0 <= k < |cards| && cards[k] == CardById(cards, id).value && IsLastWithId(cards, id, k)
  {
    if |cards| > 0 && cards[|cards| - 1].id != id {
      var init := cards[..|cards| - 1];
      CardByIdIsLast(init, id);
      var r := CardById(init, id);
      if r.Some? {
        var k :| 0 <= k < |init| && init[k] == r.value && IsLastWithId(init, id, k);
        assert cards[k] == r.value && IsLastWithId(cards, id, k);
      }
    }
  }

  /** The saved ids that still name a card of the deck, in saved order. */
  function KnownIds(ids: seq<string>, cards: seq<Card>): (r: seq<string>)
    ensures |r| <= |ids|
  {
    if ids == [] then []
    else (if HasId(cards, ids[0]) then [ids[0]] else []) + KnownIds(ids[1..], cards)
  }

  function Ids(q: seq<Card>): (r: seq<string>)
    ensures |r| == |q| && forall k :: 0 <= k < |q| ==> r[k] == q[k].id
  {
    seq(|q|, k requires 0 <= k < |q| => q[k].id)
  }

  lemma IdsAppend(a: seq<Card>, b: seq<Card>)
    ensures Ids(a + b) == Ids(a) + Ids(b)
  {
  }

  /** `queueIds.map(id => cardMap.get(id)).filter(Boolean)`. */
  function RestoreQueue(ids: seq<string>, cards: seq<Card>): (q: seq<Card>)
    ensures Ids(q) == KnownIds(ids, cards)
    ensures forall c :: c in q ==> c in cards
  {
    if ids == [] then []
    else
      var head := CardById(cards, ids[0]);
      var tail := RestoreQueue(ids[1..], cards);
      var front := if head.Some? then [head.value] else [];
      IdsAppend(front, tail);
      assert Ids(front) == if HasId(cards, ids[0]) then [ids[0]] else [];
      assert forall c :: c in front + tail ==> c in front || c in tail;
      front + tail
  }

  /** The session fields as saved; a field may be missing (`?? 0`). */
  datatype Saved = Saved(
    queueIds: seq<string>,
    score: Option<int>,
    correctAnswers: Option<int>,
    incorrectAnswers: Option<int>,
    totalCardsSeen: Option<int>,
    elapsedSeconds: Option<int>)

  datatype Restored = Restored(queue: seq<Card>, currentCard: Card, stats: Stats, elapsedSeconds: int)

  function OrZero(x: Option<int>): int {
    if x.Some? then x.value else 0
  }

  /**
   * getSavedSession: a saved session survives a reload only if some of its
   * queued cards are still in the deck; its queue is those cards, in
   * saved order, and its current card is the first of them.
   */
  function GetSavedSession(saved: Option<Saved>, cards: seq<Card>): (r: Option<Restored>)
    ensures r.Some? <==> saved.Some? && KnownIds(saved.value.queueIds, cards) != []
    ensures r.Some? ==> Ids(r.value.queue) == KnownIds(saved.value.queueIds, cards)
    ensures r.Some? ==> r.value.queue != [] && r.value.currentCard == r.value.queue[0]
    ensures r.Some? ==> forall c :: c in r.value.queue ==> c in cards
  {
    if saved.None? || |saved.value.queueIds| == 0 then None
    else
      var s := saved.value;
      var queue := RestoreQueue(s.queueIds, cards);
      if |queue| > 0 then
        Some(Restored(queue, queue[0],
                      Stats(OrZero(s.score), OrZero(s.correctAnswers), OrZero(s.incorrectAnswers), OrZero(s.totalCardsSeen)),
                      OrZero(s.elapsedSeconds)))
      else None
  }

  /** The queue a mounted session starts with: the restored one, or else the whole deck. */
  function InitialQueue(saved: Option<Saved>, cards: seq<Card>): (q: seq<Card>)
    ensures forall c :: c in q ==> c in cards
    ensures (saved.None? || KnownIds(saved.value.queueIds, cards) == []) ==> q == cards
  {
    var r := GetSavedSession(saved, cards);
    if r.Some? then r.value.queue else cards
  }

  /** Splitting a saved queue at its first id. */
  lemma HeadSplit(pre: seq<string>, id: string, post: seq<string>)
    requires pre != []
    ensures (pre + [id] + post)[0] == pre[0] && (pre + [id] + post)[1..] == pre[1..] + [id] + post
    ensures (pre + post)[0] == pre[0] && (pre + post)[1..] == pre[1..] + post
  {
  }

  /**
   * A saved id that names no card of the deck is dropped wherever it
   * stands in the saved queue, and the other ids restore as before.
   */
  lemma {:induction false} RestoreDropsMissing(pre: seq<string>, id: string, post: seq<string>, cards: seq<Card>)
    requires !HasId(cards, id)
    ensures RestoreQueue(pre + [id] + post, cards) == RestoreQueue(pre + post, cards)
    decreases |pre|
  {
    if pre == [] {
      assert pre + [id] + post == [id] + post;
      assert ([id] + post)[0] == id && ([id] + post)[1..] == post;
      assert pre + post == post;
    } else {
      HeadSplit(pre, id, post);
      RestoreDropsMissing(pre[1..], id, post, cards);
    }
  }
}
