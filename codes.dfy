/** The short-code format of the routes module: `customAlphabet(Alphabet,
    CodeLength)`. The random draw itself is abstracted: the generator is given
    the sequence of symbol positions it drew, each below the alphabet's size. */
module Codes {

  /** The generator's alphabet `0-9a-zA-Z`, written in its three runs. */
  const Digits: string := "0123456789"
  const Lower: string := "abcdefghijklmnopqrstuvwxyz"
  const Upper: string := "ABCDEFGHIJKLMNOPQRSTUVWXYZ"
  const Alphabet: string := Digits + Lower + Upper
  const CodeLength: nat := 7

  predicate IsAlphanumeric(ch: char)
  {
    ('0' <= ch <= '9') || ('a' <= ch <= 'z') || ('A' <= ch <= 'Z')
  }

  /** A code the generator can produce: exactly CodeLength symbols of the alphabet. */
  predicate ValidCode(c: string)
  {
    |c| == CodeLength && forall i :: 0 <= i < |c| ==> c[i] in Alphabet
  }

  /** Each run is a block of consecutive code points. */
  lemma DigitAt(j: nat)
    requires j < |Digits|
    ensures Digits[j] as int == '0' as int + j
  {
  }

  lemma LowerAt(j: nat)
    requires j < |Lower|
    ensures Lower[j] as int == 'a' as int + j
  {
  }

  lemma UpperAt(j: nat)
    requires j < |Upper|
    ensures Upper[j] as int == 'A' as int + j
  {
  }

  /** The symbol at position `i` of the alphabet. */
  function SymbolAt(i: nat): (ch: char)
    requires i < 62
    ensures IsAlphanumeric(ch)
  {
    if i < 10 then (i + '0' as nat) as char
    else if i < 36 then (i - 10 + 'a' as nat) as char
    else (i - 36 + 'A' as nat) as char
  }

  /** Position of an alphanumeric symbol in the alphabet. */
  function IndexOf(ch: char): (i: nat)
    requires IsAlphanumeric(ch)
    ensures i < 62 && SymbolAt(i) == ch
  {
    if ch <= '9' then ch as nat - '0' as nat
    else if ch <= 'Z' then 36 + ch as nat - 'A' as nat
    else 10 + ch as nat - 'a' as nat
  }

  /** The alphabet has 62 symbols, and the one at position `i` is SymbolAt(i). */
  lemma AlphabetAt(i: nat)
    requires i < 62
    ensures |Alphabet| == 62 && Alphabet[i] == SymbolAt(i)
  {
    if i < 10 {
      DigitAt(i);
    } else if i < 36 {
      LowerAt(i - 10);
    } else {
      UpperAt(i - 36);
    }
  }

  /** The alphabet has 62 symbols, all distinct, and they are exactly the ASCII
      digits and letters. */
  lemma AlphabetIsAlphanumeric()
    ensures |Alphabet| == 62
    ensures forall i, j :: 0 <= i < j < |Alphabet| ==> Alphabet[i] != Alphabet[j]
    ensures forall ch :: ch in Alphabet <==> IsAlphanumeric(ch)
  {
    AlphabetAt(0);
    forall i, j | 0 <= i < j < |Alphabet| ensures Alphabet[i] != Alphabet[j] {
      AlphabetAt(i);
      AlphabetAt(j);
      assert IndexOf(Alphabet[i]) == i && IndexOf(Alphabet[j]) == j;
    }
    forall ch ensures ch in Alphabet <==> IsAlphanumeric(ch) {
      if ch in Alphabet {
        var i :| 0 <= i < |Alphabet| && Alphabet[i] == ch;
        AlphabetAt(i);
      }
      if IsAlphanumeric(ch) {
        AlphabetAt(IndexOf(ch));
      }
    }
  }

  /** A valid code never contains a path separator. */
  lemma ValidCodeHasNoSlash(c: string)
    requires ValidCode(c)
    ensures '/' !in c
  {
    AlphabetIsAlphanumeric();
  }

  /** The generator: each drawn position selects one alphabet symbol. */
  function Generate(draws: seq<nat>): (c: string)
    requires forall i :: 0 <= i < |draws| ==> draws[i] < 62
    ensures |c| == |draws|
    ensures forall i :: 0 <= i < |c| ==> c[i] == SymbolAt(draws[i])
  {
    if draws == [] then [] else [SymbolAt(draws[0])] + Generate(draws[1..])
  }

  /** The positions a code was drawn from. */
  function Positions(c: string): (p: seq<nat>)
    requires forall i :: 0 <= i < |c| ==> IsAlphanumeric(c[i])
    ensures |p| == |c|
    ensures forall i :: 0 <= i < |p| ==> p[i] < 62 && SymbolAt(p[i]) == c[i]
  {
    if c == [] then [] else [IndexOf(c[0])] + Positions(c[1..])
  }

  /** Each generated symbol is the alphabet's symbol at the drawn position, so
      every draw of CodeLength positions yields a valid code. */
  lemma GenerateIsValid(draws: seq<nat>)
    requires forall i :: 0 <= i < |draws| ==> draws[i] < 62
    ensures forall i :: 0 <= i < |draws| ==> Generate(draws)[i] == Alphabet[draws[i]]
    ensures |draws| == CodeLength ==> ValidCode(Generate(draws))
  {
    forall i | 0 <= i < |draws| ensures Generate(draws)[i] == Alphabet[draws[i]] {
      AlphabetAt(draws[i]);
    }
  }

  /** SymbolAt is one-to-one on the alphabet's positions. */
  lemma SymbolAtInjective(i: nat, j: nat)
    requires i < 62 && j < 62 && SymbolAt(i) == SymbolAt(j)
    ensures i == j
  {
    assert IndexOf(SymbolAt(i)) == i;
  }

  /** Decoding a generated code recovers the draw, so distinct draws give
      distinct codes. */
  lemma PositionsOfGenerate(draws: seq<nat>)
    requires forall i :: 0 <= i < |draws| ==> draws[i] < 62
    ensures forall i :: 0 <= i < |draws| ==> IsAlphanumeric(Generate(draws)[i])
    ensures Positions(Generate(draws)) == draws
  {
    var c := Generate(draws);
    var p := Positions(c);
    forall i | 0 <= i < |draws| ensures p[i] == draws[i] {
      SymbolAtInjective(p[i], draws[i]);
    }
  }

  /** Every alphanumeric string is what the generator produces from its own
      positions: each of the 62^7 valid codes can be drawn. */
  lemma GenerateOfPositions(c: string)
    requires forall i :: 0 <= i < |c| ==> IsAlphanumeric(c[i])
    ensures Generate(Positions(c)) == c
  {
  }
}
