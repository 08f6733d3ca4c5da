# Guessing games of nodeLab01, modelled in Dafny

The repository holds two console scripts. `colorApp.js` asks the player to guess a
favourite colour. `guessing.js` asks for a secret number. Both share one loop. A
module-level `attempts` counter goes up by one for every answer, before anything
else happens. The answer is then compared with a fixed target. A match closes the
console as a win. The tenth miss closes it as a loss and reveals the target. Any
other miss prints `10 - attempts` left and asks again.

The model has three modules:

- `GuessLoop` (`guess_loop.dfy`) holds the shared loop. `GuessSession<T>` is a class
  whose fields are the script's target, its comparison, the `attempts` counter and
  whether the console is closed. `Submit` handles one answer. `Run` is the re-asking
  loop, fed with a sequence of console lines. It is proved against `Transcript`, the
  specification of a whole game. The lemmas about `Transcript` give how many answers
  a game consumes, the countdown of attempts left, and when it ends in a win or a loss.
- `ColorApp` (`color_app.dfy`): the answer is lower-cased and compared with `"blue"`.
  Nothing is trimmed, so `"BLUE"` wins and `" blue"` does not.
- `Guessing` (`guessing.dfy`): the secret is `Math.random(1, 100)`.
  That call ignores its arguments and yields a number in [0, 1). The answer is a string
  and is compared with the number by `===`, which is never true between a string and a
  number. So no input wins, and every game fed ten answers is lost on the tenth.

Where the behaviour described for these games and the code disagree, the model
follows the code:

- the colour answer is not trimmed;
- the number answer is never parsed into a number;
- the secret is a draw in [0, 1), not an integer in [1, 100];
- there is no error for an answer after the game has ended. The scripts never ask
  again once the console is closed, so `Submit` requires an open session.

## Model

| member | source | states |
|---|---|---|
| `GuessLoop.Judge` | nodelab-01-nevina-bradley/colorApp.js:14-26 | once the counter reads `attempts` (1..10): a match wins whatever the count, so a match on the tenth answer still wins; a miss with `attempts == 10` is a loss that reveals the target; any other miss is a retry reporting `10 - attempts` left, a value in 1..9 |
| `GuessLoop.FirstMatch` | nodelab-01-nevina-bradley/colorApp.js:14 | the index of the first matching answer: every earlier answer misses, and the one at that index (if any) matches |
| `GuessLoop.GuessSession.constructor` | nodelab-01-nevina-bradley/colorApp.js:6-7 | a game starts with the given target and comparison, `attempts == 0`, and the console open |
| `GuessLoop.GuessSession.Submit` | nodelab-01-nevina-bradley/colorApp.js:11-27 | each answer raises `attempts` by exactly one before the comparison; the outcome is `Judge` of the new count; the console is closed exactly when the outcome is a win or a loss; `attempts` never exceeds 10 and reaches 10 only with the console closed; the target cannot change |
| `GuessLoop.Run` | nodelab-01-nevina-bradley/colorApp.js:9-31 | the re-asking loop yields exactly the outcomes of `Transcript`, stops after a win or a loss, and consumes at most 10 answers and no more than it is given |
| `GuessLoop.Transcript` | nodelab-01-nevina-bradley/colorApp.js:9-27 | the outcomes of the `askQuestion` game that asks itself again after each miss: one outcome per answer, never more outcomes than answers nor than the attempts left, and at least one outcome once an answer is given |
| `GuessLoop.TranscriptLength` | nodelab-01-nevina-bradley/colorApp.js:11-27 | a game consumes min(index of first match + 1, attempts left, number of answers) answers |
| `GuessLoop.TranscriptCountdown` | nodelab-01-nevina-bradley/colorApp.js:18-21 | every outcome but the last is a retry, and the i-th retry reports `10 - attempts - 1 - i` left, so no question is asked after a win or a loss |
| `GuessLoop.TranscriptEnd` | nodelab-01-nevina-bradley/colorApp.js:14-26 | a game ends in a win exactly when a match comes within the attempts left and the input; it ends in a loss exactly when no match comes within the attempts left and the input has that many answers; a loss reveals the target |
| `ColorApp.ToLowerCase` | nodelab-01-nevina-bradley/colorApp.js:14 | lower-casing maps each character to one character, changing only the letters A to Z |
| `ColorApp.Matches` | nodelab-01-nevina-bradley/colorApp.js:14 | the lower-cased answer strictly equals the colour: the answer matches exactly when it has the colour's length and each of its characters lower-cases to the colour's character at the same place; only the answer is lower-cased |
| `ColorApp.MatchesIffBlueInAnyCase` | nodelab-01-nevina-bradley/colorApp.js:14 | an answer matches exactly when it is four characters long and each is the letter of "blue" in lower or upper case |
| `ColorApp.CaseIgnoredButNotTrimmed` | nodelab-01-nevina-bradley/colorApp.js:14 | "BLUE" and "Blue" win; " blue" and "blue " do not, because the answer is not trimmed |
| `ColorApp.Play` | nodelab-01-nevina-bradley/colorApp.js:9-31 | the colour game consumes min(first match + 1, 10, number of answers) answers; it ends in a win exactly when some answer among the first 10 matches; every outcome but the last is a retry and the i-th retry reports `9 - i` left; a loss reveals "blue" |
| `ColorApp.BlueOnLastAttemptWins` | nodelab-01-nevina-bradley/colorApp.js:14-16 | nine misses and then a matching answer end the game as a win on the tenth answer, because the match is tested before the limit |
| `ColorApp.TenMissesLose` | nodelab-01-nevina-bradley/colorApp.js:22-25 | ten misses in a row end the game as a loss on the tenth answer, revealing "blue" |
| `Guessing.SecretNumber` | nodelab-01-nevina-bradley/guessing.js:6-8 | the secret is a number in [0, 1), so it is never inside the advertised range 1..100 |
| `Guessing.StrictEquals` | nodelab-01-nevina-bradley/guessing.js:16 | JavaScript `===` on strings and numbers: values of different types are never equal, and otherwise equality is equality of the values |
| `Guessing.Matches` | nodelab-01-nevina-bradley/guessing.js:16 | the answer strictly equals the secret: the answer matches exactly when the secret is the string value of the answer |
| `Guessing.NoAnswerMatches` | nodelab-01-nevina-bradley/guessing.js:16 | a string answer never strictly equals the numeric secret |
| `Guessing.NoFirstMatch` | nodelab-01-nevina-bradley/guessing.js:13-16 | no answer of any input matches the secret |
| `Guessing.Play` | nodelab-01-nevina-bradley/guessing.js:11-33 | the number game never wins; it consumes min(10, number of answers) answers; every outcome but the last is a retry and the i-th retry, including a last one when the input runs out, reports `9 - i` left; it ends in a loss exactly when it is fed at least 10 answers, and the loss reveals the secret |

## Left out

- Creating the readline interface, `rl.question`, `rl.close` and every `console.log` text. The answers are a sequence of lines and the outcomes are values; closing the console is the session's `closed` field.
- The printed "N left" line. It is the `left` field of a `Retry` outcome.
- End of input. The driver stops when the sequence of answers runs out.
- The random generator. Its result is the `draw` parameter, assumed to be in [0, 1) as Math.random promises.
- JavaScript numbers are modelled as `real`. NaN, infinities and the sign of zero play no part, since Math.random yields none of them.
- `ColorApp.ToLowerCase`: covers only ASCII A to Z, not the full Unicode lower-casing of `toLowerCase`. Every other character is left unchanged. No character outside A to Z lower-cases to b, l, u or e, so matching against "blue" is exact all the same.
