/**
 * The short-code generator of express_server.js:9-16. Each of the six loop
 * iterations appends `characters.charAt(k)` to the result, where `k` is a
 * random index. The random source is a parameter: the caller passes the six
 * indices it drew, in order.
 */
module ShortCode {

  /** Number of characters in a generated code (the loop bound). */
  const CodeLength: nat := 6

  /** The alphabet the code is drawn from, as written in the source. */
  const Characters: string := "ABCDEFGHIJKLMNOPQRSTUVWXYZabcdefghijklmnopqrstuvwxyz0123456789"

  // The alphabet in its three blocks: the verifier can index each block directly.
  const Upper: string := "ABCDEFGHIJKLMNOPQRSTUVWXYZ"
  const Lower: string := "abcdefghijklmnopqrstuvwxyz"
  const Digits: string := "0123456789"

  /** `s.charAt(k)`: the one-character string at `k`, or "" past the end. */
  function CharAt(s: string, k: nat): string
  {
    if k < |s| then [s[k]] else ""
  }

  /** The code the generator builds from the random indices `draws`, one character per index. */
  function Code(draws: seq<nat>): string
  {
    if draws == [] then "" else Code(draws[..|draws| - 1]) + CharAt(Characters, draws[|draws| - 1])
  }

  /** Every index is a valid position in the alphabet, as `Math.floor(Math.random() * 62)` always is. */
  predicate InRange(draws: seq<nat>)
  {
    forall j :: 0 <= j < |draws| ==> draws[j] < |Characters|
  }

  /** Every character of `code` is one of the alphabet's. */
  predicate OverAlphabet(code: string)
  {
    forall j :: 0 <= j < |code| ==> code[j] in Characters
  }

  /** The character at position `i` of the alphabet, computed from the character codes. */
  function Symbol(i: nat): char
    requires i < 62
  {
    if i < 26 then (('A' as int) + i) as char
    else if i < 52 then (('a' as int) + (i - 26)) as char
    else (('0' as int) + (i - 52)) as char
  }

  /** The position of `c` in the alphabet, or `|Characters|` when `c` is not in it. */
  function IndexOf(c: char): nat
  {
    if 'A' <= c <= 'Z' then (c as int - 'A' as int) as nat
    else if 'a' <= c <= 'z' then (26 + (c as int - 'a' as int)) as nat
    else if '0' <= c <= '9' then (52 + (c as int - '0' as int)) as nat
    else 62
  }

  /** The indices that would make the generator produce `code`. */
  function Draws(code: string): seq<nat>
  {
    seq(|code|, j requires 0 <= j < |code| => IndexOf(code[j]))
  }

  /** The source's alphabet literal is the three blocks joined. */
  lemma CharactersAreBlocks()
    ensures Characters == Upper + Lower + Digits
  {
  }

  /** Each block holds consecutive character codes from its first character. */
  lemma UpperAreSymbols()
    ensures forall i :: 0 <= i < |Upper| ==> Upper[i] == Symbol(i)
  {
  }

  lemma LowerAreSymbols()
    ensures forall i :: 0 <= i < |Lower| ==> Lower[i] == Symbol(26 + i)
  {
  }

  lemma DigitsAreSymbols()
    ensures forall i :: 0 <= i < |Digits| ==> Digits[i] == Symbol(52 + i)
  {
  }

  /** The alphabet is the three blocks A-Z, a-z, 0-9, in that order. */
  lemma CharactersAreSymbols()
    ensures |Characters| == 62
    ensures forall i :: 0 <= i < 62 ==> Characters[i] == Symbol(i)
  {
    CharactersAreBlocks();
    UpperAreSymbols();
    LowerAreSymbols();
    DigitsAreSymbols();
    forall i | 0 <= i < 62
      ensures Characters[i] == Symbol(i)
    {
      if i < 26 {
        assert Characters[i] == Upper[i];
      } else if i < 52 {
        assert Characters[i] == Lower[i - 26];
      } else {
        assert Characters[i] == Digits[i - 52];
      }
    }
  }

  /** IndexOf undoes indexing into the alphabet: no character occurs twice. */
  lemma IndexOfCharacter(i: nat)
    requires i < |Characters|
    ensures IndexOf(Characters[i]) == i
  {
    CharactersAreSymbols();
  }

  /** Every character of the alphabet is found at the position IndexOf gives. */
  lemma CharacterAtIndexOf(c: char)
    requires c in Characters
    ensures IndexOf(c) < |Characters| && Characters[IndexOf(c)] == c
  {
    CharactersAreSymbols();
    var i :| 0 <= i < |Characters| && Characters[i] == c;
    assert Characters[i] == Symbol(i);
  }

  /** The three blocks of character codes that Symbol and IndexOf translate between. */
  predicate IsAlphanumeric(c: char)
  {
    'A' <= c <= 'Z' || 'a' <= c <= 'z' || '0' <= c <= '9'
  }

  /** Symbol and IndexOf are inverse on letters and digits. */
  lemma SymbolOfIndexOf(c: char)
    requires IsAlphanumeric(c)
    ensures IndexOf(c) < 62 && Symbol(IndexOf(c)) == c
  {
  }

  lemma SymbolIsAlphanumeric(i: nat)
    requires i < 62
    ensures IsAlphanumeric(Symbol(i))
  {
  }

  /** The alphabet holds exactly the ASCII letters and digits. */
  lemma CharactersAreAlphanumeric(c: char)
    ensures c in Characters <==> IsAlphanumeric(c)
  {
    CharactersAreSymbols();
    if IsAlphanumeric(c) {
      SymbolOfIndexOf(c);
      assert Characters[IndexOf(c)] == c;
    }
    if c in Characters {
      var i :| 0 <= i < |Characters| && Characters[i] == c;
      SymbolIsAlphanumeric(i);
    }
  }

  /** Every character of a generated code is in the alphabet, whatever the indices. */
  lemma {:induction false} CodeOverAlphabet(draws: seq<nat>)
    ensures OverAlphabet(Code(draws))
  {
    if draws != [] {
      CodeOverAlphabet(draws[..|draws| - 1]);
    }
  }

  /**
   * A code has at most one character per index, and it is exactly as long
   * as `draws` if and only if every index is in range.
   */
  lemma {:induction false} CodeSize(draws: seq<nat>)
    ensures |Code(draws)| <= |draws|
    ensures |Code(draws)| == |draws| <==> InRange(draws)
  {
    if draws != [] {
      var init := draws[..|draws| - 1];
      CodeSize(init);
      assert InRange(draws) <==> InRange(init) && draws[|draws| - 1] < |Characters|;
    }
  }

  /** With in-range indices, the `j`-th character of the code is the alphabet's character at `draws[j]`. */
  lemma {:induction false} CodeAt(draws: seq<nat>)
    requires InRange(draws)
    ensures |Code(draws)| == |draws|
    ensures forall j :: 0 <= j < |draws| ==> Code(draws)[j] == Characters[draws[j]]
  {
    if draws != [] {
      var init := draws[..|draws| - 1];
      assert InRange(init);
      CodeAt(init);
    }
  }

  /** Generating from the indices of an alphabet string gives that string back. */
  lemma {:induction false} CodeOfDraws(code: string)
    requires OverAlphabet(code)
    ensures InRange(Draws(code))
    ensures Code(Draws(code)) == code
  {
    if code != [] {
      var init := code[..|code| - 1];
      CodeOfDraws(init);
      assert Draws(code)[..|code| - 1] == Draws(init);
      forall j | 0 <= j < |code|
        ensures Draws(code)[j] < |Characters|
      {
        CharacterAtIndexOf(code[j]);
      }
      CharacterAtIndexOf(code[|code| - 1]);
    }
  }

  /** Reading the indices back from a generated code gives the indices that were drawn. */
  lemma DrawsOfCode(draws: seq<nat>)
    requires InRange(draws)
    ensures Draws(Code(draws)) == draws
  {
    CodeAt(draws);
    forall j | 0 <= j < |draws|
      ensures Draws(Code(draws))[j] == draws[j]
    {
      IndexOfCharacter(draws[j]);
    }
  }

  /**
   * Generation is a bijection between in-range index sequences of length 6
   * and 6-character alphabet strings: every such string is produced by
   * exactly one choice of indices, so uniform independent indices give a
   * uniformly distributed code.
   */
  lemma GenerationIsBijective(draws1: seq<nat>, draws2: seq<nat>, code: string)
    requires InRange(draws1) && InRange(draws2)
    requires |code| == CodeLength && OverAlphabet(code)
    ensures Code(draws1) == Code(draws2) ==> draws1 == draws2
    ensures exists draws :: |draws| == CodeLength && InRange(draws) && Code(draws) == code
  {
    DrawsOfCode(draws1);
    DrawsOfCode(draws2);
    CodeOfDraws(code);
    assert |Draws(code)| == CodeLength;
  }

  /**
   * generateRandomString: appends `characters.charAt(draws[i])` for i = 0..5.
   * With in-range indices the result is six alphabet characters, the i-th
   * being the alphabet's character at `draws[i]`.
   */
  method GenerateRandomString(draws: seq<nat>) returns (result: string)
    requires |draws| == CodeLength
    ensures result == Code(draws)
    ensures OverAlphabet(result)
    ensures |result| == CodeLength <==> InRange(draws)
    ensures InRange(draws) ==> forall j :: 0 <= j < CodeLength ==> result[j] == Characters[draws[j]]
  {
    result := "";
    for i := 0 to CodeLength
      invariant result == Code(draws[..i])
    {
      assert draws[..i + 1][..i] == draws[..i];
      result := result + CharAt(Characters, draws[i]);
    }
    assert draws[..CodeLength] == draws;
    CodeOverAlphabet(draws);
    CodeSize(draws);
    if InRange(draws) {
      CodeAt(draws);
    }
  }
}
