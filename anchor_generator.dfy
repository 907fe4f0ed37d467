/**
 * `generateAnchor` (src/visua11y-infographic/lib/generateAnchor.js): the
 * prefix `description-` followed by six characters drawn from a
 * 62-character alphanumeric alphabet. The six random draws
 * `Math.floor(Math.random() * chars.length)` are supplied as indices.
 */
module AnchorGenerator {

  const Prefix: string := "description-"
  const Chars: string := "ABCDEFGHIJKLMNOPQRSTUVWXYZabcdefghijklmnopqrstuvwxyz0123456789"
  const SuffixLength: nat := 6

  /** The letters A-Z and a-z and the digits 0-9. */
  predicate IsAlphanumeric(c: char) {
    'A' <= c <= 'Z' || 'a' <= c <= 'z' || '0' <= c <= '9'
  }

  /** Position `i` of the alphabet, computed from the character ranges. */
  function AlphabetAt(i: nat): (c: char)
    requires i < 62
  {
    if i < 26 then ('A' as int + i) as char
    else if i < 52 then ('a' as int + (i - 26)) as char
    else ('0' as int + (i - 52)) as char
  }

  /** The position of an alphanumeric character in the alphabet. */
  function AlphabetIndex(c: char): (i: nat)
    requires IsAlphanumeric(c)
    ensures i < 62 && AlphabetAt(i) == c
  {
    if 'A' <= c <= 'Z' then c as int - 'A' as int
    else if 'a' <= c <= 'z' then 26 + (c as int - 'a' as int)
    else 52 + (c as int - '0' as int)
  }

  lemma UpperCase()
    ensures forall i :: 0 <= i < 26 ==> "ABCDEFGHIJKLMNOPQRSTUVWXYZ"[i] == AlphabetAt(i)
  {
  }

  lemma LowerCase()
    ensures forall i :: 0 <= i < 26 ==> "abcdefghijklmnopqrstuvwxyz"[i] == AlphabetAt(26 + i)
  {
  }

  lemma Digits()
    ensures forall i :: 0 <= i < 10 ==> "0123456789"[i] == AlphabetAt(52 + i)
  {
  }

  lemma AlphabetRanges()
    ensures Chars == "ABCDEFGHIJKLMNOPQRSTUVWXYZ" + "abcdefghijklmnopqrstuvwxyz" + "0123456789"
  {
  }

  /** The alphabet, position by position, is A-Z, then a-z, then 0-9. */
  lemma {:induction false} AlphabetPositions()
    ensures |Chars| == 62
    ensures forall i :: 0 <= i < 62 ==> Chars[i] == AlphabetAt(i)
  {
    var upper, lower, digits := "ABCDEFGHIJKLMNOPQRSTUVWXYZ", "abcdefghijklmnopqrstuvwxyz", "0123456789";
    AlphabetRanges();
    UpperCase();
    LowerCase();
    Digits();
    var all := upper + lower + digits;
    assert |all| == 62;
    forall i | 0 <= i < 62 ensures all[i] == AlphabetAt(i) {
      if i < 26 {
        assert all[i] == upper[i];
      } else if i < 52 {
        assert all[i] == lower[i - 26];
      } else {
        assert all[i] == digits[i - 52];
      }
    }
  }

  /**
   * The alphabet has 62 characters, it holds exactly the alphanumeric ones, and
   * no character twice, so each draw picks one of 62 distinct characters.
   */
  lemma Alphabet()
    ensures |Chars| == 62
    ensures forall c :: c in Chars <==> IsAlphanumeric(c)
    ensures forall i, j :: 0 <= i < j < |Chars| ==> Chars[i] != Chars[j]
  {
    AlphabetPositions();
    forall c | IsAlphanumeric(c) ensures c in Chars {
      assert Chars[AlphabetIndex(c)] == c;
    }
    forall c | c in Chars ensures IsAlphanumeric(c) {
      var i :| 0 <= i < 62 && Chars[i] == c;
      assert c == AlphabetAt(i);
    }
  }

  /** Six draws, each an index into the alphabet. */
  predicate ValidDraws(draws: seq<nat>) {
    |draws| == SuffixLength && forall i :: 0 <= i < |draws| ==> draws[i] < |Chars|
  }

  /** The characters picked by some draws, in draw order. */
  function Picked(draws: seq<nat>): string
    requires forall i :: 0 <= i < |draws| ==> draws[i] < |Chars|
  {
    seq(|draws|, i requires 0 <= i < |draws| => Chars[draws[i]])
  }

  /** The anchor that the given draws produce. */
  function AnchorFor(draws: seq<nat>): string
    requires ValidDraws(draws)
  {
    Prefix + Picked(draws)
  }

  /** A well-formed anchor: the prefix followed by six alphanumeric characters. */
  predicate IsAnchor(s: string) {
    && |s| == |Prefix| + SuffixLength
    && s[..|Prefix|] == Prefix
    && forall i :: |Prefix| <= i < |s| ==> IsAlphanumeric(s[i])
  }

  /**
   * `generateAnchor`: starts from the prefix and appends the alphabet character
   * at each draw, six times.
   */
  method GenerateAnchor(draws: seq<nat>) returns (result: string)
    requires ValidDraws(draws)
    ensures result == AnchorFor(draws)
    ensures |result| == 18 && result[..12] == "description-"
    ensures forall i :: 0 <= i < 6 ==> result[12 + i] == Chars[draws[i]]
  {
    result := Prefix;
    for i := 0 to SuffixLength
      invariant result == Prefix + Picked(draws[..i])
    {
      result := result + [Chars[draws[i]]];
      assert draws[..i + 1] == draws[..i] + [draws[i]];
    }
    assert draws[..SuffixLength] == draws;
  }

  /** Every anchor the generator can produce is well formed. */
  lemma AnchorForIsAnchor(draws: seq<nat>)
    requires ValidDraws(draws)
    ensures IsAnchor(AnchorFor(draws))
  {
    AlphabetPositions();
    var s := AnchorFor(draws);
    forall i | |Prefix| <= i < |s| ensures IsAlphanumeric(s[i]) {
      assert s[i] == Chars[draws[i - |Prefix|]];
    }
  }

  /** The draws an anchor was generated from, read back off its suffix. */
  function DrawsOf(anchor: string): (draws: seq<nat>)
    requires IsAnchor(anchor)
    ensures |draws| == SuffixLength
    ensures forall i :: 0 <= i < SuffixLength ==> draws[i] == AlphabetIndex(anchor[|Prefix| + i])
  {
    seq(SuffixLength, i requires 0 <= i < SuffixLength => DrawAt(anchor, i))
  }

  function DrawAt(anchor: string, i: nat): nat
    requires IsAnchor(anchor) && i < SuffixLength
  {
    assert IsAlphanumeric(anchor[|Prefix| + i]);
    AlphabetIndex(anchor[|Prefix| + i])
  }

  /** Reading the draws back off a generated anchor recovers them. */
  lemma DrawsOfAnchorFor(draws: seq<nat>)
    requires ValidDraws(draws)
    ensures IsAnchor(AnchorFor(draws)) && DrawsOf(AnchorFor(draws)) == draws
  {
    AlphabetPositions();
    AnchorForIsAnchor(draws);
    var s := AnchorFor(draws);
    forall i | 0 <= i < SuffixLength ensures DrawsOf(s)[i] == draws[i] {
      assert s[|Prefix| + i] == AlphabetAt(draws[i]);
    }
  }

  /**
   * Every well-formed anchor is generated from the draws read off it. With
   * `DrawsOfAnchorFor`, draws and anchors correspond one to one, so two calls
   * collide exactly when all six draws agree.
   */
  lemma AnchorForDrawsOf(anchor: string)
    requires IsAnchor(anchor)
    ensures ValidDraws(DrawsOf(anchor)) && AnchorFor(DrawsOf(anchor)) == anchor
  {
    AlphabetPositions();
    var t := AnchorFor(DrawsOf(anchor));
    assert t[..|Prefix|] == anchor[..|Prefix|];
    forall i | 0 <= i < |anchor| ensures t[i] == anchor[i] {
      if i < |Prefix| {
        assert t[i] == t[..|Prefix|][i];
        assert anchor[i] == anchor[..|Prefix|][i];
      }
    }
  }
}
