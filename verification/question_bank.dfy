/**
  The question bank of questionBank.js: an array of question records read
  from a CSV file, shuffled once with Fisher-Yates, and a cursor
  `currentQuestionIndex` that starts at -1 and only moves forward.

  `Math.random()` is replaced by an oracle: `draws[i]` is the index `j` that
  `Math.floor(Math.random() * (i + 1))` produced at the loop step for `i`.
 */
module QuestionBank {
  import opened Wrappers

  /** One CSV row (`columns: true`), restricted to the columns the bank reads. */
  datatype Record = Record(
    question: string,
    optionA: string,
    optionB: string,
    optionC: string,
    optionD: string,
    correctAnswer: string)

  /** The four labelled options of a served question. */
  datatype Options = Options(A: string, B: string, C: string, D: string)

  /** What `getNextQuestion` hands out: the record without its answer. */
  datatype Question = Question(question: string, options: Options)

  /** The cursor never goes below its initial value -1. */
  type Cursor = i: int | -1 <= i witness -1

  datatype Bank = Bank(questions: seq<Record>, currentQuestionIndex: Cursor)

  /** Result of `getNextQuestion`: the advanced bank and the question or `null`. */
  datatype Next = Next(bank: Bank, question: Option<Question>)

  /** The constructor: no questions, cursor before the first one. */
  function NewBank(): (r: Bank)
    ensures r.questions == [] && r.currentQuestionIndex == -1
    ensures GetNextQuestion(r).question == None
    ensures forall answer :: !CheckAnswer(r, answer)
  {
    Bank([], -1)
  }

  // ---------------------------------------------------------------------
  // Fisher-Yates shuffle

  /** The random source only ever yields `j` in `[0, i]` at step `i`. */
  predicate ValidDraws(draws: seq<int>, n: nat) {
    |draws| == n && forall i :: 0 <= i < n ==> 0 <= draws[i] <= i
  }

  /** The destructuring swap `[a[i], a[j]] = [a[j], a[i]]`. */
  function Swap<T>(a: seq<T>, i: nat, j: nat): (r: seq<T>)
    requires i < |a| && j < |a|
    ensures |r| == |a|
  {
    a[i := a[j]][j := a[i]]
  }

  /** A swap only exchanges two elements, so it keeps the multiset. */
  lemma SwapPermutes<T>(a: seq<T>, i: nat, j: nat)
    requires i < |a| && j < |a|
    ensures multiset(Swap(a, i, j)) == multiset(a)
  {
  }

  /**
    The loop of `shuffleQuestions` from step `i` down to step 1, as a
    function: each step swaps position `i` with the drawn `j <= i`.
   */
  function ShuffleFrom<T>(a: seq<T>, draws: seq<int>, i: int): (r: seq<T>)
    requires i < |a| && ValidDraws(draws, |a|)
    ensures |r| == |a|
    decreases i
  {
    if i <= 0 then a
    else ShuffleFrom(Swap(a, i, draws[i]), draws, i - 1)
  }

  /** Every prefix of the loop permutes the array (the heart of Fisher-Yates). */
  lemma {:induction false} ShuffleFromPermutes<T>(a: seq<T>, draws: seq<int>, i: int)
    requires i < |a| && ValidDraws(draws, |a|)
    ensures multiset(ShuffleFrom(a, draws, i)) == multiset(a)
    decreases i
  {
    if i > 0 {
      SwapPermutes(a, i, draws[i]);
      ShuffleFromPermutes(Swap(a, i, draws[i]), draws, i - 1);
    }
  }

  /** The whole shuffle: the loop starts at `length - 1`. */
  function Shuffled<T>(a: seq<T>, draws: seq<int>): seq<T>
    requires ValidDraws(draws, |a|)
  {
    ShuffleFrom(a, draws, |a| - 1)
  }

  /**
    `shuffleQuestions` as written: an in-place Fisher-Yates pass over an
    array. The result is the functional `Shuffled` and a permutation of the
    input.
   */
  method ShuffleQuestions<T>(qs: seq<T>, draws: seq<int>) returns (r: seq<T>)
    requires ValidDraws(draws, |qs|)
    ensures r == Shuffled(qs, draws)
    ensures |r| == |qs|
    ensures multiset(r) == multiset(qs)
  {
    if |qs| == 0 {
      return qs;
    }
    var a := new T[|qs|](k requires 0 <= k < |qs| => qs[k]);
    ghost var cur := qs;
    var i := |qs| - 1;
    while i > 0
      invariant 0 <= i < a.Length == |cur| == |qs|
      invariant a[..] == cur
      invariant ShuffleFrom(cur, draws, i) == Shuffled(qs, draws)
      decreases i
    {
      var j := draws[i];
      a[i], a[j] := a[j], a[i];
      SwapStep(cur, a[..], i, j);
      ShuffleStep(cur, draws, i);
      cur := Swap(cur, i, j);
      i := i - 1;
    }
    r := a[..];
    ShuffleFromPermutes(qs, draws, |qs| - 1);
  }

  /** A sequence that agrees with `Swap(a, i, j)` pointwise is that swap. */
  lemma SwapStep<T>(a: seq<T>, b: seq<T>, i: nat, j: nat)
    requires i < |a| && j < |a| && |b| == |a|
    requires b[i] == a[j] && b[j] == a[i]
    requires forall k :: 0 <= k < |a| && k != i && k != j ==> b[k] == a[k]
    ensures b == Swap(a, i, j)
  {
  }

  /** One step of the shuffle loop, unfolded. */
  lemma ShuffleStep<T>(a: seq<T>, draws: seq<int>, i: int)
    requires 0 < i < |a| && ValidDraws(draws, |a|)
    ensures ShuffleFrom(a, draws, i) == ShuffleFrom(Swap(a, i, draws[i]), draws, i - 1)
  {
  }

  // ---------------------------------------------------------------------
  // Loading, serving and checking questions

  /**
    `loadQuestions`: `parsed` is the outcome of reading and parsing the CSV
    file (`None` when either fails and the promise rejects). On success the
    records replace the questions and are shuffled; the cursor is NOT reset.
   */
  function LoadQuestions(b: Bank, parsed: Option<seq<Record>>, draws: seq<int>): (r: Bank)
    requires parsed.Some? ==> ValidDraws(draws, |parsed.value|)
    ensures parsed.None? ==> r == b
    ensures parsed.Some? ==> multiset(r.questions) == multiset(parsed.value)
    ensures r.currentQuestionIndex == b.currentQuestionIndex
  {
    match parsed
    case None => b
    case Some(records) =>
      ShuffleFromPermutes(records, draws, |records| - 1);
      Bank(Shuffled(records, draws), b.currentQuestionIndex)
  }

  /** The object literal built by `getNextQuestion` from a record. */
  function Project(rec: Record): Question {
    Question(rec.question, Options(rec.optionA, rec.optionB, rec.optionC, rec.optionD))
  }

  /**
    `getNextQuestion`: always advances the cursor by one, then serves the
    record under it, or `null` once the cursor is past the end.
   */
  function GetNextQuestion(b: Bank): (r: Next)
    ensures r.bank.questions == b.questions
    ensures r.bank.currentQuestionIndex == b.currentQuestionIndex + 1
    ensures r.question.None? <==> b.currentQuestionIndex + 1 >= |b.questions|
    ensures r.question.Some? ==> r.question.value == Project(b.questions[b.currentQuestionIndex + 1])
  {
    var index := b.currentQuestionIndex + 1;
    var b' := b.(currentQuestionIndex := index);
    if index >= |b.questions| then Next(b', None)
    else Next(b', Some(Project(b.questions[index])))
  }

  /** `checkAnswer`: strict equality with the current record's answer label. */
  function CheckAnswer(b: Bank, answer: string): (r: bool)
    ensures r ==> exists q :: q in b.questions && q.correctAnswer == answer
  {
    if b.currentQuestionIndex < 0 || b.currentQuestionIndex >= |b.questions| then false
    else b.questions[b.currentQuestionIndex].correctAnswer == answer
  }

  // ---------------------------------------------------------------------
  // The cursor over many calls

  /** The result of the `k`-th consecutive call to `getNextQuestion` on `b`. */
  function Calls(b: Bank, k: nat): Next
    requires k >= 1
    decreases k
  {
    if k == 1 then GetNextQuestion(b) else GetNextQuestion(Calls(b, k - 1).bank)
  }

  /** Each call moves the cursor by exactly one, exhausted or not. */
  lemma {:induction false} CallsAdvanceCursor(b: Bank, k: nat)
    requires k >= 1
    ensures Calls(b, k).bank.questions == b.questions
    ensures Calls(b, k).bank.currentQuestionIndex == b.currentQuestionIndex + k
    decreases k
  {
    if k > 1 {
      CallsAdvanceCursor(b, k - 1);
    }
  }

  /**
    From a fresh cursor, the `k`-th call serves record `k - 1` (options
    `optionA..optionD` as `A..D`) while `k <= n`, and `null` afterwards;
    `checkAnswer` then judges against exactly that record.
   */
  lemma {:induction false} KthCallServesKthRecord(qs: seq<Record>, k: nat, answer: string)
    requires k >= 1
    ensures k <= |qs| ==> Calls(Bank(qs, -1), k).question == Some(Project(qs[k - 1]))
    ensures k > |qs| ==> Calls(Bank(qs, -1), k).question == None
    ensures k <= |qs| ==> (CheckAnswer(Calls(Bank(qs, -1), k).bank, answer) <==> qs[k - 1].correctAnswer == answer)
    ensures k > |qs| ==> !CheckAnswer(Calls(Bank(qs, -1), k).bank, answer)
  {
    CallsAdvanceCursor(Bank(qs, -1), k);
    if k > 1 {
      CallsAdvanceCursor(Bank(qs, -1), k - 1);
    }
  }

  /** Once `getNextQuestion` has returned `null`, every later call does too. */
  lemma {:induction false} ExhaustionIsPermanent(b: Bank, k: nat)
    requires GetNextQuestion(b).question.None?
    requires k >= 1
    ensures Calls(GetNextQuestion(b).bank, k).question.None?
  {
    CallsAdvanceCursor(GetNextQuestion(b).bank, k);
    if k > 1 {
      CallsAdvanceCursor(GetNextQuestion(b).bank, k - 1);
    }
  }

  /**
    `checkAnswer` right after `getNextQuestion` judges the question just
    served, and is false when nothing was served; before the first call it is
    always false.
   */
  lemma CheckAnswerJudgesServedQuestion(b: Bank, answer: string)
    ensures !CheckAnswer(Bank(b.questions, -1), answer)
    ensures GetNextQuestion(b).question.None? ==> !CheckAnswer(GetNextQuestion(b).bank, answer)
    ensures GetNextQuestion(b).question.Some? ==>
              (CheckAnswer(GetNextQuestion(b).bank, answer) <==>
               b.questions[b.currentQuestionIndex + 1].correctAnswer == answer)
  {
  }
}
