/**
 The secret-number game. The secret is drawn once at start-up by calling
 Math.random with a minimum and a maximum that it ignores, so it is a number in
 [0, 1). The answer read from the console is a string and is compared with the
 secret by strict equality, which never holds between a string and a number:
 no answer wins, and every game fed ten answers is lost.
 */
module Guessing {
  import opened GuessLoop

  /** The JavaScript values that meet in the comparison: console answers and the secret. */
  datatype JsValue = JsString(str: string) | JsNumber(num: real)

  /** JavaScript's `===` on these values: values of different types are never equal. */
  function StrictEquals(a: JsValue, b: JsValue): (r: bool)
    ensures a.JsString? != b.JsString? ==> !r
    ensures r <==> a == b
  {
    match (a, b)
    case (JsString(x), JsString(y)) => x == y
    case (JsNumber(x), JsNumber(y)) => x == y
    case _ => false
  }

  const MinNumber: real := 1.0
  const MaxNumber: real := 100.0

  /**
   The secret produced by Math.random(MinNumber, MaxNumber) when the generator
   yields `draw`: the bounds are ignored, so the secret lies outside them.
   */
  function SecretNumber(draw: real): (secret: JsValue)
    requires 0.0 <= draw < 1.0
    ensures secret.JsNumber? && 0.0 <= secret.num < 1.0
    ensures !(MinNumber <= secret.num <= MaxNumber)
  {
    JsNumber(draw)
  }

  /** The comparison of the answer callback: the string answer `===` the secret. */
  predicate Matches(answer: string, secret: JsValue): (r: bool)
    ensures r <==> secret == JsString(answer)
  {
    StrictEquals(JsString(answer), secret)
  }

  /** A string answer never strictly equals a numeric secret. */
  lemma NoAnswerMatches(answer: string, secret: JsValue)
    requires secret.JsNumber?
    ensures !Matches(answer, secret)
  {
  }

  /** No answer in any input matches a numeric secret. */
  lemma NoFirstMatch(answers: seq<string>, secret: JsValue)
    requires secret.JsNumber?
    ensures FirstMatch(answers, Matches, secret) == |answers|
  {
  }

  /**
   Plays the number game on the console lines `answers`, with the random
   generator yielding `draw`: it never wins, counts down from nine, and is lost
   on the tenth answer, revealing the secret.
   */
  method Play(draw: real, answers: seq<string>) returns (outcomes: seq<Outcome<JsValue>>)
    requires 0.0 <= draw < 1.0
    ensures outcomes == Transcript(answers, Matches, SecretNumber(draw), 0)
    ensures |outcomes| == Min(|answers|, MaxAttempts)
    ensures forall i :: 0 <= i < |outcomes| ==> !outcomes[i].Won?
    ensures forall i :: 0 <= i < |outcomes| - 1 ==> outcomes[i] == Retry(MaxAttempts - 1 - i)
    ensures forall i :: 0 <= i < |outcomes| && outcomes[i].Retry? ==> outcomes[i].left == MaxAttempts - 1 - i
    ensures EndsInLoss(outcomes) <==> |answers| >= MaxAttempts
    ensures EndsInLoss(outcomes) ==> outcomes[|outcomes| - 1] == Lost(SecretNumber(draw))
  {
    var secret := SecretNumber(draw);
    outcomes := Run(secret, Matches, answers);
    NoFirstMatch(answers, secret);
    TranscriptLength(answers, Matches, secret, 0);
    TranscriptCountdown(answers, Matches, secret, 0);
    TranscriptEnd(answers, Matches, secret, 0);
  }
}
