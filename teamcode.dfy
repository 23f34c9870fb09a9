/** `generateTeamCode`: six characters drawn from a 36-letter alphabet. The random
    draws, `Math.floor(Math.random() * 36)`, are the input. */
module TeamCode {
  import opened Text
  import Config

  const Alphabet: string := "ABCDEFGHIJKLMNOPQRSTUVWXYZ0123456789"

  /** The character the alphabet holds at position `i`: letters first, then digits. */
  function AlphabetAt(i: nat): (c: char)
    requires i < 36
    ensures Config.IsCodeChar(c)
  {
    if i < 26 then ('A' as int + i) as char else ('0' as int + (i - 26)) as char
  }

  lemma AlphabetLayout()
    ensures |Alphabet| == 36
    ensures forall i | 0 <= i < 36 :: Alphabet[i] == AlphabetAt(i)
  {
    assert Alphabet == seq(36, i requires 0 <= i < 36 => AlphabetAt(i));
  }

  /** Position of a code character in the alphabet. */
  function AlphabetIndex(c: char): (i: nat)
    requires Config.IsCodeChar(c)
    ensures i < 36 && AlphabetAt(i) == c
  {
    if IsUpperLetter(c) then c as int - 'A' as int else 26 + (c as int - '0' as int)
  }

  lemma AlphabetIndexOfAt(i: nat)
    requires i < 36
    ensures AlphabetIndex(AlphabetAt(i)) == i
  {
  }

  predicate ValidDraws(draws: seq<nat>) {
    forall i | 0 <= i < |draws| :: draws[i] < 36
  }

  /** The code a sequence of draws spells. */
  function CodeOf(draws: seq<nat>): (code: string)
    requires ValidDraws(draws)
    ensures |code| == |draws|
    ensures forall i | 0 <= i < |draws| :: code[i] == AlphabetAt(draws[i])
  {
    if draws == [] then [] else CodeOf(draws[..|draws| - 1]) + [AlphabetAt(draws[|draws| - 1])]
  }

  /** The draws that spell a code. */
  function DrawsOf(code: string): (draws: seq<nat>)
    requires forall i | 0 <= i < |code| :: Config.IsCodeChar(code[i])
    ensures |draws| == |code| && ValidDraws(draws)
    ensures forall i | 0 <= i < |code| :: draws[i] == AlphabetIndex(code[i])
  {
    seq(|code|, i requires 0 <= i < |code| => AlphabetIndex(code[i]))
  }

  /** Different draws give different codes: the draws can be read back from the code. */
  lemma DrawsOfCodeOf(draws: seq<nat>)
    requires ValidDraws(draws)
    ensures DrawsOf(CodeOf(draws)) == draws
  {
    var back := DrawsOf(CodeOf(draws));
    forall i | 0 <= i < |draws| ensures back[i] == draws[i] {
      AlphabetIndexOfAt(draws[i]);
    }
  }

  /** No valid code is out of reach: every code the pattern accepts is spelled by six draws. */
  lemma CodeOfDrawsOf(code: string)
    requires Config.ValidTeamCode(code)
    ensures |DrawsOf(code)| == 6
    ensures CodeOf(DrawsOf(code)) == code
  {
    var again := CodeOf(DrawsOf(code));
    assert forall i | 0 <= i < |code| :: again[i] == code[i];
  }

  /** A sequence of draws spells a valid code exactly when there are six of them. */
  lemma CodeOfValidIffSix(draws: seq<nat>)
    requires ValidDraws(draws)
    ensures Config.ValidTeamCode(CodeOf(draws)) <==> |draws| == 6
  {
  }

  /** `generateTeamCode`: appends one alphabet character per draw. */
  method GenerateTeamCode(draws: seq<nat>) returns (code: string)
    requires |draws| == 6 && ValidDraws(draws)
    ensures code == CodeOf(draws)
    ensures Config.ValidTeamCode(code)
  {
    AlphabetLayout();
    code := "";
    for i := 0 to 6
      invariant code == CodeOf(draws[..i])
    {
      code := code + [Alphabet[draws[i]]];
      assert draws[..i + 1][..i] == draws[..i];
    }
    assert draws[..6] == draws;
  }
}
