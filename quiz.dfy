/** The two quizzes: the Trivia Helper (5 questions, reveals the trivia
    positions on a perfect score) and the Emergency quiz (10 questions, a
    perfect score allows entering the full code). The dialogs are inputs:
    `picks` is what `random.sample` drew (indices into the pool), `answers`
    what each `askstring` returned (`None` for a cancelled dialog). */
module Quiz {
  import opened Text
  import opened SecretCode
  import opened SecretHelpers

  /** The Trivia Helper's question pool: (question, expected answer). */
  const TriviaPool: seq<(string, string)> := [
    ("What is the atomic number of gold?", "79"),
    ("Which planet has the most moons (as of 2023)?", "saturn"),
    ("What is the capital city of Peru?", "lima"),
    ("In computing, what does 'CPU' stand for?", "central processing unit"),
    ("What is the approximate value of pi to 2 decimal places?", "3.14"),
    ("What year did the Berlin Wall fall?", "1989"),
    ("Which element has chemical symbol 'Na'?", "sodium"),
    ("Who wrote '1984'?", "george orwell"),
    ("What is the largest ocean on Earth?", "pacific"),
    ("What language is primarily spoken in Brazil?", "portuguese")
  ]

  /** The Emergency quiz's question pool. */
  const EmergencyPool: seq<(string, string)> := [
    ("What is the capital of Iceland?", "reykjavik"),
    ("What year did the Titanic sink?", "1912"),
    ("What is the chemical formula for table salt?", "nacl"),
    ("Who painted the Mona Lisa?", "leonardo da vinci"),
    ("Which gas makes up ~78% of Earth's atmosphere?", "nitrogen"),
    ("What is the largest planet in our solar system?", "jupiter"),
    ("What is the square root of 144?", "12"),
    ("Which metal has the highest electrical conductivity?", "silver"),
    ("In which country is the Taj Mahal located?", "india"),
    ("Who proposed the theory of general relativity?", "albert einstein"),
    ("What is the freezing point of water in Celsius?", "0"),
    ("Which city hosted the 2012 Summer Olympics?", "london"),
    ("What currency is used in Japan?", "yen"),
    ("What is the chemical symbol for iron?", "fe"),
    ("Which scientist discovered penicillin?", "alexander fleming")
  ]

  const TriviaQuestions: nat := 5
  const EmergencyQuestions: nat := 10

  /** `random.sample(pool, k)`, as the indices of the questions drawn:
      `k` distinct indices into a pool of `poolSize` questions. */
  predicate IsSample(picks: seq<nat>, poolSize: nat, k: nat) {
    && |picks| == k
    && (forall i :: 0 <= i < k ==> picks[i] < poolSize)
    && (forall i, j :: 0 <= i < j < k ==> picks[i] != picks[j])
  }

  predicate InPool(pool: seq<(string, string)>, picks: seq<nat>) {
    forall i :: 0 <= i < |picks| ==> picks[i] < |pool|
  }

  /** `ans and ans.strip().lower() == a.lower()`: a cancelled or empty
      answer never counts; otherwise case and surrounding whitespace are
      ignored. */
  predicate IsCorrect(ans: Option<string>, expected: string): (b: bool)
    ensures expected != [] ==> (b <==> ans.Some? && Lower(Strip(ans.value)) == Lower(expected))
    ensures b ==> ans.Some? && |Strip(ans.value)| == |expected|
  {
    ans.Some? && ans.value != [] && Lower(Strip(ans.value)) == Lower(expected)
  }

  /** Which of the answers count, question by question. */
  function Marks(pool: seq<(string, string)>, picks: seq<nat>, answers: seq<Option<string>>): (m: seq<bool>)
    requires InPool(pool, picks) && |answers| == |picks|
    ensures |m| == |answers|
  {
    seq(|answers|, i requires 0 <= i < |answers| => IsCorrect(answers[i], pool[picks[i]].1))
  }

  /** The number of `true` entries. */
  function Count(marks: seq<bool>): (n: nat)
    ensures n <= |marks|
    ensures n == |marks| <==> forall i :: 0 <= i < |marks| ==> marks[i]
  {
    if marks == [] then 0
    else
      var k := |marks| - 1;
      assert forall i :: 0 <= i < k ==> marks[..k][i] == marks[i];
      Count(marks[..k]) + if marks[k] then 1 else 0
  }

  /** The number of answers that match the expected answer of the question
      they were given to: between none and all of them, and all of them
      exactly when every answer counts. */
  function Score(pool: seq<(string, string)>, picks: seq<nat>, answers: seq<Option<string>>): (n: nat)
    requires InPool(pool, picks) && |answers| == |picks|
    ensures n <= |answers|
    ensures n == |answers| <==> forall i :: 0 <= i < |answers| ==> IsCorrect(answers[i], pool[picks[i]].1)
  {
    var m := Marks(pool, picks, answers);
    assert forall i :: 0 <= i < |answers| ==> m[i] == IsCorrect(answers[i], pool[picks[i]].1);
    Count(m)
  }

  /** The loop `for q, a in picks: ... if <correct>: correct += 1`. */
  method CountCorrect(pool: seq<(string, string)>, picks: seq<nat>, answers: seq<Option<string>>)
    returns (correct: nat)
    requires InPool(pool, picks) && |answers| == |picks|
    ensures correct == Score(pool, picks, answers)
  {
    ghost var marks := Marks(pool, picks, answers);
    correct := 0;
    for k := 0 to |answers|
      invariant correct == Count(marks[..k])
    {
      assert marks[..k + 1][..k] == marks[..k];
      if IsCorrect(answers[k], pool[picks[k]].1) {
        correct := correct + 1;
      }
    }
    assert marks[..|answers|] == marks;
  }

  datatype TriviaResult = Revealed(pattern: string) | ScoreOnly(correct: nat)

  /** `trivia_helper`: on 5/5 the pattern of the trivia positions is shown,
      otherwise only the score. */
  method TriviaHelper(h: Helpers, picks: seq<nat>, answers: seq<Option<string>>) returns (result: TriviaResult)
    requires ValidHelpers(h)
    requires IsSample(picks, |TriviaPool|, TriviaQuestions) && |answers| == TriviaQuestions
    ensures result.Revealed? <==> Score(TriviaPool, picks, answers) == TriviaQuestions
    ensures result.Revealed? ==> result.pattern == Mask(h.secret, h.triviaPositions)
    ensures result.ScoreOnly? ==> result.correct == Score(TriviaPool, picks, answers) < TriviaQuestions
  {
    var correct := CountCorrect(TriviaPool, picks, answers);
    if correct == 5 {
      SplitInRange(h.cluePositions, h.triviaPositions);
      var pattern := BuildPattern(h.secret, h.triviaPositions);
      result := Revealed(pattern);
    } else {
      result := ScoreOnly(correct);
    }
  }

  datatype EmergencyResult =
    | Declined             // the confirmation was answered "no": no quiz
    | Reported(wrong: nat) // "You got {wrong}/10 wrong."
    | Unlocked             // correct code: the prank exits
    | IncorrectCode        // perfect quiz, but "Incorrect code."

  /** The code-entry dialog was shown. */
  predicate PromptedForCode(r: EmergencyResult) {
    r.Unlocked? || r.IncorrectCode?
  }

  /** `code and code.strip() == secret_code`. The `code and` guard only
      matters for an empty secret: for any other, acceptance is exactly the
      stripped input matching. */
  predicate CodeAccepted(code: Option<string>, secret: string): (b: bool)
    ensures secret != [] ==> (b <==> code.Some? && Strip(code.value) == secret)
  {
    code.Some? && code.value != [] && Strip(code.value) == secret
  }

  /** `emergency_quiz_flow`: `confirmed` is the answer to the opening
      yes/no question, `code` what the code-entry dialog returns if asked. */
  method EmergencyQuizFlow(secret: string, confirmed: bool, picks: seq<nat>, answers: seq<Option<string>>,
                           code: Option<string>) returns (result: EmergencyResult)
    requires confirmed ==> IsSample(picks, |EmergencyPool|, EmergencyQuestions) && |answers| == EmergencyQuestions
    ensures !confirmed ==> result == Declined
    ensures confirmed ==> (PromptedForCode(result) <==> Score(EmergencyPool, picks, answers) == EmergencyQuestions)
    ensures confirmed && !PromptedForCode(result) ==>
              result == Reported(EmergencyQuestions - Score(EmergencyPool, picks, answers)) && 0 < result.wrong
    ensures result == Unlocked <==>
              confirmed && Score(EmergencyPool, picks, answers) == EmergencyQuestions && CodeAccepted(code, secret)
  {
    if !confirmed {
      return Declined;
    }
    var correct := CountCorrect(EmergencyPool, picks, answers);
    var wrong := 10 - correct;
    if wrong == 0 {
      if CodeAccepted(code, secret) {
        result := Unlocked;
      } else {
        result := IncorrectCode;
      }
    } else {
      result := Reported(wrong);
    }
  }

  /** An answer typed with any mix of surrounding whitespace, and in any
      case, counts as long as its trimmed text matches case-insensitively. */
  lemma PaddedAnswerCounts(left: string, ans: string, right: string, expected: string)
    requires AllSpace(left) && AllSpace(right) && Trimmed(ans) && ans != []
    requires Lower(ans) == Lower(expected)
    ensures IsCorrect(Some(left + ans + right), expected)
  {
    StripPadded(left, ans, right);
  }

  /** Cancelled, empty and all-whitespace answers never count against a
      non-empty expected answer. */
  lemma BlankAnswerNeverCounts(ans: Option<string>, expected: string)
    requires ans.Some? ==> AllSpace(ans.value)
    requires expected != []
    ensures !IsCorrect(ans, expected)
  {
    if ans.Some? {
      StripPadded(ans.value, [], []);
      assert ans.value + [] + [] == ans.value;
    }
  }

  /** Typing back a non-empty answer without surrounding whitespace
      counts. */
  lemma ExactAnswerCounts(a: string)
    requires a != [] && Trimmed(a)
    ensures IsCorrect(Some(a), a)
  {
    StripPadded([], a, []);
    assert [] + a + [] == a;
  }

  /** Every expected answer of the Trivia pool is non-empty and has no
      surrounding whitespace, so typing it back always counts. */
  lemma TriviaAnswersAccepted(i: nat)
    requires i < |TriviaPool|
    ensures IsCorrect(Some(TriviaPool[i].1), TriviaPool[i].1)
  {
    ExactAnswerCounts(TriviaPool[i].1);
  }

  /** The same for the Emergency pool. */
  lemma EmergencyAnswersAccepted(i: nat)
    requires i < |EmergencyPool|
    ensures IsCorrect(Some(EmergencyPool[i].1), EmergencyPool[i].1)
  {
    ExactAnswerCounts(EmergencyPool[i].1);
  }

  /** Entering the secret with any surrounding whitespace unlocks. */
  lemma PaddedCodeAccepted(secret: string, left: string, right: string)
    requires IsSecretCode(secret) && AllSpace(left) && AllSpace(right)
    ensures CodeAccepted(Some(left + secret + right), secret)
  {
    StripPadded(left, secret, right);
  }

  /** Any other four-digit code is refused. */
  lemma OtherCodeRefused(secret: string, other: string)
    requires IsSecretCode(other) && other != secret
    ensures !CodeAccepted(Some(other), secret)
  {
    assert Trimmed(other);
    StripPadded([], other, []);
    assert [] + other + [] == other;
  }
}
