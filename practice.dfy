/**
  The practice session: the state `PracticeView` keeps (the shuffled deck,
  the current position, the typed answer, the feedback and the score) and
  the actions its buttons perform. The layout is not modelled.
 */
module Practice {
  import opened Wrappers
  import opened Text
  import opened Offsets
  import opened WordPairs

  /** Which language is shown: `.ukToDe` shows the Ukrainian text and
      expects the German one, `.deToUk` the other way round. */
  datatype PracticeDirection = UkToDe | DeToUk

  function Flip(d: PracticeDirection): PracticeDirection {
    if d == UkToDe then DeToUk else UkToDe
  }

  /** The verdict `feedback` reports; the feedback strings themselves are
      not modelled. */
  datatype Feedback = Correct | Incorrect

  /** What `promptText()` shows when there is nothing to practise. */
  const EmptyPrompt: string := "—"

  /** The side of `pair` shown as the prompt. */
  function PromptOf(pair: WordPair, direction: PracticeDirection): (r: string)
    ensures direction == UkToDe ==> r == pair.ukrainian
    ensures direction == DeToUk ==> r == pair.german
  {
    if direction == UkToDe then pair.ukrainian else pair.german
  }

  /** The side of `pair` expected as the answer. */
  function AnswerOf(pair: WordPair, direction: PracticeDirection): (r: string)
    ensures direction == UkToDe ==> r == pair.german
    ensures direction == DeToUk ==> r == pair.ukrainian
  {
    if direction == UkToDe then pair.german else pair.ukrainian
  }

  /** The answer is the side the prompt does not show: it is the prompt of
      the opposite direction, and prompt and answer together are the pair's
      two texts. */
  lemma AnswerIsOppositeSide(pair: WordPair, direction: PracticeDirection)
    ensures AnswerOf(pair, direction) == PromptOf(pair, Flip(direction))
    ensures multiset{PromptOf(pair, direction), AnswerOf(pair, direction)}
         == multiset{pair.german, pair.ukrainian}
  {
  }

  /** `normalize(_:)`: trims, then applies the locale-aware folding
      (diacritics, width and case), which is given as `fold`. */
  function Normalize(s: string, fold: string -> string): (r: string)
    ensures forall p, q :: AllSpace(p) && AllSpace(q) ==> fold(Trim(p + s + q)) == r
  {
    TrimIgnoresAnyPadding(s);
    fold(Trim(s))
  }

  /** The comparison `checkAnswer()` makes: both texts are trimmed and
      lower-cased (`lower`), then normalised, and compared. */
  function AnswersMatch(given: string, expected: string, lower: string -> string, fold: string -> string): (m: bool)
    ensures Trim(given) == Trim(expected) ==> m
  {
    Normalize(lower(Trim(given)), fold) == Normalize(lower(Trim(expected)), fold)
  }

  /** Leading or trailing whitespace in the typed answer never changes the
      verdict, whatever the lower-casing and folding do. */
  lemma MatchIgnoresPadding(p: string, given: string, q: string, expected: string,
                            lower: string -> string, fold: string -> string)
    requires AllSpace(p) && AllSpace(q)
    ensures AnswersMatch(p + given + q, expected, lower, fold) == AnswersMatch(given, expected, lower, fold)
  {
    TrimIgnoresPadding(p, given, q);
  }

  /** The expected text, typed with any surrounding whitespace, is accepted. */
  lemma PaddedAnswerIsCorrect(p: string, expected: string, q: string,
                              lower: string -> string, fold: string -> string)
    requires AllSpace(p) && AllSpace(q)
    ensures AnswersMatch(p + expected + q, expected, lower, fold)
  {
    MatchIgnoresPadding(p, expected, q, expected, lower, fold);
  }

  /** `(currentIndex + 1) % practiceWords.count`. */
  function Advance(i: nat, n: nat): (j: nat)
    requires i < n
    ensures j < n
  {
    (i + 1) % n
  }

  /** The position after `k` presses of "Next" from position `i`. */
  function AdvanceTimes(i: nat, n: nat, k: nat): (j: nat)
    requires i < n
    ensures j < n
  {
    if k == 0 then i else Advance(AdvanceTimes(i, n, k - 1), n)
  }

  lemma ModOfSmaller(x: nat, n: nat)
    requires x < n
    ensures x % n == x
  {
  }

  lemma ModOfSelf(n: nat)
    requires 0 < n
    ensures n % n == 0
  {
  }

  /** Within one round, "Next" counts up from `i` and wraps to 0 once. */
  lemma {:induction false} AdvanceTimesWraps(i: nat, n: nat, k: nat)
    requires i < n && k <= n
    ensures AdvanceTimes(i, n, k) == if i + k < n then i + k else i + k - n
  {
    if k > 0 {
      AdvanceTimesWraps(i, n, k - 1);
      var prev := AdvanceTimes(i, n, k - 1);
      if prev + 1 < n {
        ModOfSmaller(prev + 1, n);
      } else {
        ModOfSelf(n);
      }
    }
  }

  /** After as many presses of "Next" as there are cards, the session is
      back at the card it started from. */
  lemma CycleReturns(i: nat, n: nat)
    requires i < n
    ensures AdvanceTimes(i, n, n) == i
  {
    AdvanceTimesWraps(i, n, n);
  }

  /** One round of "Next" visits every card: position `j` is reached after
      `k` presses, and by no other number of presses below `n`. */
  lemma CycleVisitsEachOnce(i: nat, n: nat, j: nat) returns (k: nat)
    requires i < n && j < n
    ensures k < n && AdvanceTimes(i, n, k) == j
    ensures forall k' :: 0 <= k' < n && AdvanceTimes(i, n, k') == j ==> k' == k
  {
    k := if i <= j then j - i else j + n - i;
    AdvanceTimesWraps(i, n, k);
    forall k' | 0 <= k' < n && AdvanceTimes(i, n, k') == j ensures k' == k {
      AdvanceTimesWraps(i, n, k');
    }
  }

  /**
    The `@State` of `PracticeView`. `lower` and `fold` stand for
    `lowercased()` and the locale-aware `folding(options:locale:)`, which
    are not modelled further.
   */
  class PracticeSession {
    const lower: string -> string
    const fold: string -> string
    var direction: PracticeDirection
    var currentIndex: nat
    var practiceWords: seq<WordPair>
    var userAnswer: string
    var feedback: Option<Feedback>
    var showAnswer: bool
    var correctCount: nat
    var askedCount: nat

    /** The score never counts more correct answers than questions, and the
        position is a card of the deck (0 when the deck is empty). */
    ghost predicate Valid()
      reads this
    {
      && correctCount <= askedCount
      && (practiceWords == [] ==> currentIndex == 0)
      && (practiceWords != [] ==> currentIndex < |practiceWords|)
    }

    /** The declared initial values of the view's state. */
    constructor (lower: string -> string, fold: string -> string)
      ensures Valid()
      ensures this.lower == lower && this.fold == fold
      ensures direction == UkToDe && currentIndex == 0 && practiceWords == []
      ensures userAnswer == [] && feedback == None && !showAnswer
      ensures correctCount == 0 && askedCount == 0
    {
      this.lower := lower;
      this.fold := fold;
      direction := UkToDe;
      currentIndex := 0;
      practiceWords := [];
      userAnswer := [];
      feedback := None;
      showAnswer := false;
      correctCount := 0;
      askedCount := 0;
    }

    /** `startPractice()`: `words.shuffled()` is the deck, in the order
        `order` the shuffle picked, and everything else is reset. */
    method StartPractice(words: seq<WordPair>, order: seq<nat>)
      requires IsPermutation(order, |words|)
      modifies this
      ensures Valid()
      ensures practiceWords == Permute(words, order)
      ensures multiset(practiceWords) == multiset(words)
      ensures currentIndex == 0 && userAnswer == [] && feedback == None && !showAnswer
      ensures correctCount == 0 && askedCount == 0
      ensures direction == old(direction)
    {
      var deck := Permute(words, order);
      PermutePreservesMultiset(words, order);
      practiceWords := deck;
      currentIndex := 0;
      userAnswer := [];
      feedback := None;
      showAnswer := false;
      correctCount := 0;
      askedCount := 0;
    }

    /** `promptText()`. */
    function PromptText(): (r: string)
      reads this`practiceWords, this`currentIndex, this`direction
      requires practiceWords != [] ==> currentIndex < |practiceWords|
      ensures practiceWords == [] ==> r == EmptyPrompt
      ensures practiceWords != [] ==> r == PromptOf(practiceWords[currentIndex], direction)
    {
      if practiceWords == [] then EmptyPrompt
      else PromptOf(practiceWords[currentIndex], direction)
    }

    /** `answerText()`. */
    function AnswerText(): (r: string)
      reads this`practiceWords, this`currentIndex, this`direction
      requires practiceWords != [] ==> currentIndex < |practiceWords|
      ensures practiceWords == [] ==> r == []
      ensures practiceWords != [] ==> r == AnswerOf(practiceWords[currentIndex], direction)
    {
      if practiceWords == [] then []
      else AnswerOf(practiceWords[currentIndex], direction)
    }

    /** `checkAnswer()`: on a non-empty deck, counts the question, counts it
        as correct exactly when the normalised answers agree, records the
        verdict and reveals the answer. On an empty deck it does nothing. */
    method CheckAnswer()
      requires Valid()
      modifies this`askedCount, this`correctCount, this`feedback, this`showAnswer
      ensures Valid()
      ensures practiceWords == old(practiceWords) && currentIndex == old(currentIndex)
      ensures userAnswer == old(userAnswer) && direction == old(direction)
      ensures old(practiceWords) == [] ==> unchanged(this)
      ensures old(practiceWords) != [] ==>
        var correct := AnswersMatch(old(userAnswer), AnswerText(), lower, fold);
        && askedCount == old(askedCount) + 1
        && correctCount == old(correctCount) + (if correct then 1 else 0)
        && feedback == Some(if correct then Correct else Incorrect)
        && showAnswer
    {
      if practiceWords == [] {
        return;
      }
      var correct := lower(Trim(AnswerText()));
      var given := lower(Trim(userAnswer));
      var matched := Normalize(given, fold) == Normalize(correct, fold);
      assert matched == AnswersMatch(userAnswer, AnswerText(), lower, fold);
      askedCount := askedCount + 1;
      if matched {
        feedback := Some(Correct);
        correctCount := correctCount + 1;
      } else {
        feedback := Some(Incorrect);
      }
      showAnswer := true;
    }

    /** `nextCard()`: on a non-empty deck, moves to the next card, wrapping
        to the first, and clears the answer, feedback and reveal; the score
        stays. On an empty deck it does nothing. */
    method NextCard()
      requires Valid()
      modifies this
      ensures Valid()
      ensures practiceWords == old(practiceWords) && direction == old(direction)
      ensures correctCount == old(correctCount) && askedCount == old(askedCount)
      ensures old(practiceWords) == [] ==> unchanged(this)
      ensures old(practiceWords) != [] ==>
        && currentIndex == Advance(old(currentIndex), |practiceWords|)
        && userAnswer == [] && feedback == None && !showAnswer
    {
      if practiceWords == [] {
        return;
      }
      userAnswer := [];
      feedback := None;
      showAnswer := false;
      currentIndex := (currentIndex + 1) % |practiceWords|;
    }

    /** The "Show answer" / "Hide" button: `showAnswer.toggle()`. */
    method ToggleShowAnswer()
      requires Valid()
      modifies this`showAnswer
      ensures Valid()
      ensures showAnswer == !old(showAnswer)
    {
      showAnswer := !showAnswer;
    }

    /** The answer text field writes `userAnswer` verbatim. */
    method SetUserAnswer(text: string)
      requires Valid()
      modifies this`userAnswer
      ensures Valid()
      ensures userAnswer == text
    {
      userAnswer := text;
    }

    /** The direction picker writes `direction`. */
    method SetDirection(d: PracticeDirection)
      requires Valid()
      modifies this`direction
      ensures Valid()
      ensures direction == d
    {
      direction := d;
    }
  }
}
