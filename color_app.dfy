/**
 The favourite-colour game: an answer wins when its lower-cased form is exactly
 "blue". Only the answer is lower-cased; nothing is trimmed.
 */
module ColorApp {
  import opened GuessLoop

  const FavoriteColor: string := "blue"

  /** Lower-cases one ASCII letter and leaves every other character alone. */
  function LowerChar(c: char): char
  {
    if 'A' <= c <= 'Z' then (c as int + 32) as char else c
  }

  /** JavaScript's toLowerCase restricted to ASCII: one character out for each character in. */
  function ToLowerCase(s: string): (r: string)
    ensures |r| == |s|
    ensures forall i :: 0 <= i < |s| ==> r[i] == LowerChar(s[i])
  {
    if s == [] then [] else [LowerChar(s[0])] + ToLowerCase(s[1..])
  }

  /** The comparison of the answer callback: lower-case the answer, then compare strictly with the colour. */
  predicate Matches(answer: string, color: string): (r: bool)
    ensures r <==> |answer| == |color| && forall i :: 0 <= i < |answer| ==> LowerChar(answer[i]) == color[i]
  {
    ToLowerCase(answer) == color
  }

  /**
   An answer matches the favourite colour exactly when it has its four letters,
   each either in lower case or in upper case.
   */
  lemma MatchesIffBlueInAnyCase(answer: string)
    ensures Matches(answer, FavoriteColor) <==>
      |answer| == |FavoriteColor| &&
      forall i :: 0 <= i < |answer| ==>
        answer[i] == FavoriteColor[i] || answer[i] as int == FavoriteColor[i] as int - 32
  {
  }

  /** Case is ignored but white space is not: "BLUE" wins while " blue" and "blue " do not. */
  lemma CaseIgnoredButNotTrimmed()
    ensures Matches("BLUE", FavoriteColor) && Matches("Blue", FavoriteColor)
    ensures !Matches(" blue", FavoriteColor) && !Matches("blue ", FavoriteColor)
  {
  }

  /** Plays the colour game on the console lines `answers`. */
  method Play(answers: seq<string>) returns (outcomes: seq<Outcome<string>>)
    ensures outcomes == Transcript(answers, Matches, FavoriteColor, 0)
    ensures |outcomes| == Min(|answers|, Min(FirstMatch(answers, Matches, FavoriteColor) + 1, MaxAttempts))
    ensures EndsInWin(outcomes) <==> FirstMatch(answers, Matches, FavoriteColor) < Min(|answers|, MaxAttempts)
    ensures EndsInLoss(outcomes) ==> outcomes[|outcomes| - 1] == Lost(FavoriteColor)
    ensures forall i :: 0 <= i < |outcomes| - 1 ==> outcomes[i].Retry?
    ensures forall i :: 0 <= i < |outcomes| && outcomes[i].Retry? ==> outcomes[i].left == MaxAttempts - 1 - i
  {
    outcomes := Run(FavoriteColor, Matches, answers);
    TranscriptLength(answers, Matches, FavoriteColor, 0);
    TranscriptCountdown(answers, Matches, FavoriteColor, 0);
    TranscriptEnd(answers, Matches, FavoriteColor, 0);
  }

  /** A matching tenth answer still wins: the match is tested before the attempt limit. */
  lemma BlueOnLastAttemptWins(answers: seq<string>)
    requires |answers| >= MaxAttempts
    requires forall i :: 0 <= i < MaxAttempts - 1 ==> !Matches(answers[i], FavoriteColor)
    requires Matches(answers[MaxAttempts - 1], FavoriteColor)
    ensures var tr := Transcript(answers, Matches, FavoriteColor, 0);
      |tr| == MaxAttempts && tr[MaxAttempts - 1] == Won
  {
    var k := FirstMatch(answers, Matches, FavoriteColor);
    assert k == MaxAttempts - 1;
    TranscriptLength(answers, Matches, FavoriteColor, 0);
    TranscriptEnd(answers, Matches, FavoriteColor, 0);
  }

  /** Ten misses in a row lose the game on the tenth answer, revealing "blue". */
  lemma TenMissesLose(answers: seq<string>)
    requires |answers| >= MaxAttempts
    requires forall i :: 0 <= i < MaxAttempts ==> !Matches(answers[i], FavoriteColor)
    ensures var tr := Transcript(answers, Matches, FavoriteColor, 0);
      |tr| == MaxAttempts && tr[MaxAttempts - 1] == Lost(FavoriteColor)
  {
    var k := FirstMatch(answers, Matches, FavoriteColor);
    assert k >= MaxAttempts;
    TranscriptLength(answers, Matches, FavoriteColor, 0);
    TranscriptEnd(answers, Matches, FavoriteColor, 0);
  }
}
