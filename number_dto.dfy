/** The area-code classifier (dto/number.dto.js): NumberDto.build splits a normalised
    number into an area code and the rest, by membership of its prefixes in the list of
    known area codes. */
module Dto {
  import opened Common
  import opened Text
  import opened Constants

  /** A classified number: its area code (null when nothing matched), the subscriber
      part, and whether it is counted. */
  datatype NumberDto = NumberDto(areaCode: Option<string>, number: string, valid: bool)

  /** The first k characters of s, or all of s when it is shorter. */
  function Prefix(s: string, k: nat): (r: string)
    ensures |r| == Min(k, |s|) && StartsWith(s, r)
  {
    s[..Min(k, |s|)]
  }

  /** NumberDto.build, as written: an exact three-character number is its own area code;
      otherwise the three-, two- and one-character prefixes are tried in that order. The
      subscriber part starts at the index constants FourthItem, ThirdItem and SecondItem. */
  function Build(areaCodes: seq<string>, numero: string): (r: NumberDto)
    ensures r.valid <==> r.areaCode.Some?
    ensures r.valid <==> || |numero| == ThreeDigits
                         || Prefix(numero, 3) in areaCodes
                         || Prefix(numero, 2) in areaCodes
                         || Prefix(numero, 1) in areaCodes
    ensures !r.valid ==> r.number == numero
  {
    if ThreeDigits == |numero| then
      NumberDto(Some(numero), EmptyString, true)
    else if Substring(numero, FirstItem, ThreeDigits) in areaCodes then
      NumberDto(Some(Substring(numero, FirstItem, ThreeDigits)), Substring(numero, FourthItem, |numero|), true)
    else if Substring(numero, FirstItem, TwoDigits) in areaCodes then
      NumberDto(Some(Substring(numero, FirstItem, TwoDigits)), Substring(numero, ThirdItem, |numero|), true)
    else if Substring(numero, FirstItem, OneDigit) in areaCodes then
      NumberDto(Some(Substring(numero, FirstItem, OneDigit)), Substring(numero, SecondItem, |numero|), true)
    else
      NumberDto(None, numero, false)
  }

  /** A three-character number is always valid and is its own area code, whatever the list. */
  lemma BuildShortCode(areaCodes: seq<string>, numero: string)
    requires |numero| == 3
    ensures Build(areaCodes, numero) == NumberDto(Some(numero), "", true)
  {
  }

  /** Longest match wins: the area code of any other valid number is a listed prefix of
      length k (at most three), and no longer prefix of length at most three is listed. */
  lemma BuildLongestListedPrefix(areaCodes: seq<string>, numero: string)
    requires |numero| != 3
    requires Build(areaCodes, numero).valid
    ensures exists k :: (&& 1 <= k <= 3
                         && Build(areaCodes, numero).areaCode == Some(Prefix(numero, k))
                         && Prefix(numero, k) in areaCodes
                         && forall j :: k < j <= 3 ==> Prefix(numero, j) !in areaCodes)
  {
    if Prefix(numero, 3) in areaCodes {
      assert Build(areaCodes, numero).areaCode == Some(Prefix(numero, 3));
    } else if Prefix(numero, 2) in areaCodes {
      assert Build(areaCodes, numero).areaCode == Some(Prefix(numero, 2));
    } else {
      assert Build(areaCodes, numero).areaCode == Some(Prefix(numero, 1));
    }
  }

  /** With no listed prefix of length three, two or one, a number of any other length than
      three is invalid, has no area code, and keeps the whole input as its number. */
  lemma BuildNoListedPrefix(areaCodes: seq<string>, numero: string)
    requires |numero| != 3
    requires forall k :: 1 <= k <= 3 ==> Prefix(numero, k) !in areaCodes
    ensures Build(areaCodes, numero) == NumberDto(None, numero, false)
  {
    assert Prefix(numero, 1) !in areaCodes && Prefix(numero, 2) !in areaCodes && Prefix(numero, 3) !in areaCodes;
  }

  /** Whenever valid, the area code is a prefix of the number of at most three characters,
      and of at least one when the number is not empty. */
  lemma BuildAreaCodeIsPrefix(areaCodes: seq<string>, numero: string)
    requires Build(areaCodes, numero).valid
    ensures StartsWith(numero, Build(areaCodes, numero).areaCode.value)
    ensures |Build(areaCodes, numero).areaCode.value| <= 3
    ensures numero != "" ==> |Build(areaCodes, numero).areaCode.value| >= 1
  {
  }

  /** How the number is split, as written: after a one-character code the rest is the
      whole remainder, but after a two- or three-character code of a longer number the
      character right after the code is in neither part. */
  lemma BuildSplit(areaCodes: seq<string>, numero: string)
    requires Build(areaCodes, numero).valid && |numero| > 3
    ensures var r := Build(areaCodes, numero); var c := r.areaCode.value;
      && (|c| == 1 ==> c + r.number == numero)
      && (|c| >= 2 ==> c + [numero[|c|]] + r.number == numero)
  {
    var r := Build(areaCodes, numero);
    var c := r.areaCode.value;
    assert numero == numero[..|c|] + [numero[|c|]] + numero[|c| + 1..];
  }

  /** Classification only asks which strings are members of the list: lists with the same
      members (in particular any reordering, such as sort().reverse()) classify alike. */
  lemma BuildMembershipOnly(a: seq<string>, b: seq<string>, numero: string)
    requires forall x :: x in a <==> x in b
    ensures Build(a, numero) == Build(b, numero)
  {
  }

  /** NumberDto.build with the offsets evidently intended (index 3 after a three-character
      code, 2 after a two-character one): the number is the whole rest. */
  function BuildIntended(areaCodes: seq<string>, numero: string): (r: NumberDto)
    ensures r.areaCode == Build(areaCodes, numero).areaCode
    ensures r.valid == Build(areaCodes, numero).valid
    ensures r.valid ==> r.areaCode.Some? && r.areaCode.value + r.number == numero
  {
    assert forall k :: 0 <= k <= |numero| ==> numero[..k] + numero[k..] == numero;
    if ThreeDigits == |numero| then
      NumberDto(Some(numero), EmptyString, true)
    else if Substring(numero, FirstItem, ThreeDigits) in areaCodes then
      NumberDto(Some(Substring(numero, FirstItem, ThreeDigits)), Substring(numero, ThreeDigits, |numero|), true)
    else if Substring(numero, FirstItem, TwoDigits) in areaCodes then
      NumberDto(Some(Substring(numero, FirstItem, TwoDigits)), Substring(numero, TwoDigits, |numero|), true)
    else if Substring(numero, FirstItem, OneDigit) in areaCodes then
      NumberDto(Some(Substring(numero, FirstItem, OneDigit)), Substring(numero, OneDigit, |numero|), true)
    else
      NumberDto(None, numero, false)
  }

  /** The input that shows the skipped character: with "351" listed, the twelve-digit
      number "351961111111" gets the number part "61111111", which drops the "9"; the
      intended split keeps "961111111". */
  lemma BuildSkipsDigitExample()
    ensures Build(["351"], "351961111111") == NumberDto(Some("351"), "61111111", true)
    ensures BuildIntended(["351"], "351961111111") == NumberDto(Some("351"), "961111111", true)
    ensures Build(["351"], "351961111111").areaCode.value + Build(["351"], "351961111111").number != "351961111111"
  {
    var n := "351961111111";
    assert n[..3] == "351";
    assert n[4..] == "61111111";
    assert n[3..] == "961111111";
  }
}
