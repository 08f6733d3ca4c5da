/**
 The bounded-attempt guessing loop shared by the two console games.

 Each script keeps a module-level `attempts` counter and a fixed target. Every
 answer read from the console bumps the counter first and is then compared with
 the target: a match ends the game as a win, the tenth miss ends it as a loss
 that reveals the target, and any other miss reports how many attempts are left
 and asks again. The scripts differ only in how an answer is compared with the
 target, so the session here is parameterised by that comparison.
 */
module GuessLoop {

  /** The number of answers a game accepts before it is lost. */
  const MaxAttempts: nat := 10

  /** What the game does with one answer. */
  datatype Outcome<T> =
    | Won                  // the answer matched; the console is closed
    | Retry(left: nat)     // a miss with attempts to spare; the question is asked again
    | Lost(revealed: T)    // the last allowed miss; the target is revealed and the console closed
  {
    predicate IsTerminal() { !Retry? }
  }

  function Min(x: int, y: int): int { if x <= y then x else y }

  /** The decision taken for an answer, once the counter already reads `attempts`. */
  function Judge<T>(attempts: nat, matched: bool, target: T): (o: Outcome<T>)
    requires 1 <= attempts <= MaxAttempts
    ensures o.Won? <==> matched
    ensures o.Lost? <==> !matched && attempts == MaxAttempts
    ensures o.Lost? ==> o.revealed == target
    ensures o.Retry? ==> o.left == MaxAttempts - attempts && 1 <= o.left < MaxAttempts
  {
    if matched then Won
    else if attempts < MaxAttempts then Retry(MaxAttempts - attempts)
    else Lost(target)
  }

  /** Index of the first answer that matches the target, or |answers| if none does. */
  function FirstMatch<T>(answers: seq<string>, matches: (string, T) -> bool, target: T): (k: nat)
    ensures k <= |answers|
    ensures forall i :: 0 <= i < k ==> !matches(answers[i], target)
    ensures k < |answers| ==> matches(answers[k], target)
  {
    if answers == [] then 0
    else if matches(answers[0], target) then 0
    else 1 + FirstMatch(answers[1..], matches, target)
  }

  /**
   The outcomes a game produces when it is fed `answers` with the counter at
   `attempts`: one outcome per answer, stopping after the first terminal one.
   */
  function Transcript<T>(answers: seq<string>, matches: (string, T) -> bool, target: T, attempts: nat): (tr: seq<Outcome<T>>)
    requires attempts < MaxAttempts
    ensures |tr| <= |answers| && |tr| <= MaxAttempts - attempts
    ensures answers != [] ==> tr != []
    decreases |answers|
  {
    if answers == [] then []
    else
      var o := Judge(attempts + 1, matches(answers[0], target), target);
      if o.Retry? then [o] + Transcript(answers[1..], matches, target, attempts + 1)
      else [o]
  }

  predicate EndsInWin<T>(outcomes: seq<Outcome<T>>) { outcomes != [] && outcomes[|outcomes| - 1].Won? }

  predicate EndsInLoss<T>(outcomes: seq<Outcome<T>>) { outcomes != [] && outcomes[|outcomes| - 1].Lost? }

  /** The state of one game: the script's target, its comparison, its counter and its console. */
  class GuessSession<T> {
    const target: T
    const matches: (string, T) -> bool
    var attempts: nat
    var closed: bool   // the console has been closed; no question is asked any more

    ghost predicate Valid()
      reads this
    {
      attempts <= MaxAttempts && (attempts == MaxAttempts ==> closed)
    }

    constructor (target: T, matches: (string, T) -> bool)
      ensures Valid()
      ensures this.target == target && this.matches == matches
      ensures attempts == 0 && !closed
    {
      this.target := target;
      this.matches := matches;
      attempts := 0;
      closed := false;
    }

    /** Handles one answer: counts it, then compares it, then decides whether to ask again. */
    method Submit(answer: string) returns (o: Outcome<T>)
      requires Valid() && !closed
      modifies this
      ensures Valid()
      ensures attempts == old(attempts) + 1
      ensures o == Judge(attempts, matches(answer, target), target)
      ensures closed <==> o.IsTerminal()
    {
      attempts := attempts + 1;
      if matches(answer, target) {
        o := Won;
        closed := true;
      } else if attempts < MaxAttempts {
        o := Retry(MaxAttempts - attempts);
      } else {
        o := Lost(target);
        closed := true;
      }
    }
  }

  /**
   Drives a fresh game with the console lines `answers`, asking again after each
   miss until the game ends or the input runs out.
   */
  method Run<T>(target: T, matches: (string, T) -> bool, answers: seq<string>) returns (outcomes: seq<Outcome<T>>)
    ensures outcomes == Transcript(answers, matches, target, 0)
    ensures |outcomes| <= |answers| && |outcomes| <= MaxAttempts
  {
    var session := new GuessSession(target, matches);
    outcomes := [];
    var i := 0;
    assert answers[i..] == answers;
    while i < |answers| && !session.closed
      invariant session.Valid()
      invariant session.target == target && session.matches == matches
      invariant i == session.attempts && i <= |answers|
      invariant !session.closed ==>
        Transcript(answers, matches, target, 0) == outcomes + Transcript(answers[i..], matches, target, i)
      invariant session.closed ==> Transcript(answers, matches, target, 0) == outcomes
      decreases |answers| - i
    {
      var o := session.Submit(answers[i]);
      assert answers[i..][0] == answers[i] && answers[i..][1..] == answers[i + 1..];
      outcomes := outcomes + [o];
      i := i + 1;
    }
  }

  /** A game consumes answers up to and including the first match, at most the attempts left, and no more than it is given. */
  lemma {:induction false} TranscriptLength<T>(answers: seq<string>, matches: (string, T) -> bool, target: T, attempts: nat)
    requires attempts < MaxAttempts
    ensures |Transcript(answers, matches, target, attempts)|
         == Min(|answers|, Min(FirstMatch(answers, matches, target) + 1, MaxAttempts - attempts))
  {
    if answers != [] && !matches(answers[0], target) && attempts + 1 < MaxAttempts {
      TranscriptLength(answers[1..], matches, target, attempts + 1);
    }
  }

  /** Every outcome but the last asks again, and each retry reports the attempts left after that answer. */
  ghost predicate CountsDown<T>(outcomes: seq<Outcome<T>>, attempts: nat)
  {
    (forall i :: 0 <= i < |outcomes| - 1 ==> outcomes[i].Retry?) &&
    (forall i :: 0 <= i < |outcomes| && outcomes[i].Retry? ==> outcomes[i].left == MaxAttempts - attempts - 1 - i)
  }

  lemma {:induction false} TranscriptCountdown<T>(answers: seq<string>, matches: (string, T) -> bool, target: T, attempts: nat)
    requires attempts < MaxAttempts
    ensures CountsDown(Transcript(answers, matches, target, attempts), attempts)
  {
    if answers != [] {
      var o := Judge(attempts + 1, matches(answers[0], target), target);
      if o.Retry? {
        TranscriptCountdown(answers[1..], matches, target, attempts + 1);
        var rest := Transcript(answers[1..], matches, target, attempts + 1);
        var tr := Transcript(answers, matches, target, attempts);
        assert tr == [o] + rest;
        forall i | 1 <= i < |tr|
          ensures tr[i] == rest[i - 1]
        {
        }
      }
    }
  }

  /**
   A game ends in a win exactly when some answer within the attempts left
   matches, and in a loss, revealing the target, exactly when the attempts run
   out with no match.
   */
  lemma {:induction false} TranscriptEnd<T>(answers: seq<string>, matches: (string, T) -> bool, target: T, attempts: nat)
    requires attempts < MaxAttempts
    ensures var tr := Transcript(answers, matches, target, attempts);
      var k := FirstMatch(answers, matches, target);
      (EndsInWin(tr) <==> k < |answers| && k < MaxAttempts - attempts) &&
      (EndsInLoss(tr) <==> k >= MaxAttempts - attempts && |answers| >= MaxAttempts - attempts) &&
      (EndsInLoss(tr) ==> tr[|tr| - 1] == Lost(target))
  {
    if answers != [] {
      var o := Judge(attempts + 1, matches(answers[0], target), target);
      if o.Retry? {
        TranscriptEnd(answers[1..], matches, target, attempts + 1);
        var rest := Transcript(answers[1..], matches, target, attempts + 1);
        assert Transcript(answers, matches, target, attempts) == [o] + rest;
      }
    }
  }
}
