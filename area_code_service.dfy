/** The area-code service (services/area-code/area-code.service.js): the six normalisation
    stages and their chain, the grouping of numbers by area code, and the whole run from
    an input path to the report text. */
module AreaCodeService {
  import opened Common
  import opened Seqs
  import opened Text
  import opened Constants
  import opened Dto
  import opened FileService

  // ---------------------------------------------------------------------------------
  // The stages

  /** A stage's last step: a non-empty batch goes on, an empty one fails the run. */
  function NonEmpty(stage: Stage, s: seq<string>): (r: Result<seq<string>>)
    ensures r.Success? <==> s != []
    ensures r.Success? ==> r.value == s
    ensures r.Failure? ==> r.error == EmptyResult(stage)
  {
    if |s| > 0 then Success(s) else Failure(EmptyResult(stage))
  }

  /** The test of checkInitialChars: a non-empty item that starts with '+', a digit after
      it and not "00" as its characters 1..2; or one whose first character is a digit. */
  predicate HasValidInitial(item: string) {
    && item != EmptyString
    && (|| (&& StartsWith(item, PlusSignal)
            && ContainsDigit(CharAt(item, SecondItem))
            && Substring(item, SecondItem, ThreeDigits) != "00")
        || ContainsDigit(CharAt(item, FirstItem)))
  }

  /** The items checkInitialChars keeps: those starting with a digit, and those starting
      with '+' and a digit that are not "+00" followed by anything. */
  lemma HasValidInitialMeans(item: string)
    ensures HasValidInitial(item) <==>
      || (|item| >= 1 && IsDigit(item[0]))
      || (|item| >= 2 && item[0] == '+' && IsDigit(item[1]) && !(|item| >= 3 && item[1] == '0' && item[2] == '0'))
  {
    if |item| >= 1 {
      assert CharAt(item, 0) == [item[0]];
      ContainsDigitSingle(item[0]);
    }
    if |item| >= 2 {
      assert CharAt(item, 1) == [item[1]];
      ContainsDigitSingle(item[1]);
      if |item| >= 3 {
        assert Substring(item, 1, 3) == [item[1], item[2]];
      } else {
        assert |Substring(item, 1, 3)| == 1;
      }
    }
  }

  lemma ContainsDigitSingle(c: char)
    ensures ContainsDigit([c]) <==> IsDigit(c)
  {
    assert [c][0] == c;
  }

  /** checkInitialChars: keeps, in order, the items with valid initial characters; fails
      when there is none. */
  function CheckInitialChars(data: seq<string>): (r: Result<seq<string>>)
    ensures r.Success? <==> exists i :: 0 <= i < |data| && HasValidInitial(data[i])
    ensures r.Success? ==> r.value == Keep(HasValidInitial, data)
    ensures r.Failure? ==> r.error == EmptyResult(AtInitialChars)
  {
    KeepNonEmpty(HasValidInitial, data);
    NonEmpty(AtInitialChars, Keep(HasValidInitial, data))
  }

  predicate NotTab(c: char) { c != '\t' }
  predicate NotSpace(c: char) { c != BlankSpace }
  predicate NotBlank(c: char) { c != '\t' && c != BlankSpace }

  /** One item of removeBlankSpaces: every tab removed, then split on spaces and joined
      back with nothing; the empty item passes through. The result is the item with every
      tab and every space deleted and the other characters kept in order. */
  function RemoveBlanks(item: string): (r: string)
    ensures r == Keep(NotBlank, item)
    ensures forall i :: 0 <= i < |r| ==> r[i] != '\t' && r[i] != ' '
  {
    if item == EmptyString then item
    else
      JoinSplitDeletes(Keep(NotTab, item), BlankSpace, NotSpace);
      KeepKeep(NotTab, NotSpace, NotBlank, item);
      Join(Split(Keep(NotTab, item), BlankSpace), EmptyString)
  }

  /** removeBlankSpaces: the same number of items in the same order, each without blanks;
      fails on an empty batch. */
  function RemoveBlankSpaces(data: seq<string>): (r: Result<seq<string>>)
    ensures r.Success? <==> data != []
    ensures r.Success? ==> |r.value| == |data| && forall i :: 0 <= i < |data| ==> r.value[i] == RemoveBlanks(data[i])
    ensures r.Failure? ==> r.error == EmptyResult(AtBlankSpaces)
  {
    NonEmpty(AtBlankSpaces, Apply(RemoveBlanks, data))
  }

  /** One item of removePlusSignal: an item starting with '+' loses that '+' (the first
      occurrence, which replace removes); any other item is unchanged. */
  function RemovePlus(item: string): (r: string)
    ensures StartsWith(item, PlusSignal) ==> PlusSignal + r == item
    ensures !StartsWith(item, PlusSignal) ==> r == item
  {
    if item != EmptyString && StartsWith(item, PlusSignal) then ReplaceFirst(item, PlusSignal) else item
  }

  /** removePlusSignal: the same number of items in the same order, each without its
      leading '+'; fails on an empty batch. */
  function RemovePlusSignal(data: seq<string>): (r: Result<seq<string>>)
    ensures r.Success? <==> data != []
    ensures r.Success? ==> |r.value| == |data| && forall i :: 0 <= i < |data| ==> r.value[i] == RemovePlus(data[i])
    ensures r.Failure? ==> r.error == EmptyResult(AtPlusSignal)
  {
    NonEmpty(AtPlusSignal, Apply(RemovePlus, data))
  }

  /** One item of removeZerosAtLeft: when "00" is found at index 0, its first occurrence
      is removed, so exactly one leading "00" goes; any other item is unchanged. */
  function RemoveZeros(item: string): (r: string)
    ensures StartsWith(item, "00") ==> "00" + r == item
    ensures !StartsWith(item, "00") ==> r == item
  {
    if item != EmptyString && IndexOf(item, "00") == FirstItem then ReplaceFirst(item, "00") else item
  }

  /** removeZerosAtLeft: the same number of items in the same order, each without one
      leading "00"; fails on an empty batch. */
  function RemoveZerosAtLeft(data: seq<string>): (r: Result<seq<string>>)
    ensures r.Success? <==> data != []
    ensures r.Success? ==> |r.value| == |data| && forall i :: 0 <= i < |data| ==> r.value[i] == RemoveZeros(data[i])
    ensures r.Failure? ==> r.error == EmptyResult(AtZerosAtLeft)
  {
    NonEmpty(AtZerosAtLeft, Apply(RemoveZeros, data))
  }

  /** checkOnlyNumbers: keeps, in order, the items made of one or more ASCII digits;
      fails when there is none. */
  function CheckOnlyNumbers(data: seq<string>): (r: Result<seq<string>>)
    ensures r.Success? <==> exists i :: 0 <= i < |data| && AllDigits(data[i])
    ensures r.Success? ==> r.value == Keep(AllDigits, data)
    ensures r.Failure? ==> r.error == EmptyResult(AtOnlyNumbers)
  {
    KeepNonEmpty(AllDigits, data);
    NonEmpty(AtOnlyNumbers, Keep(AllDigits, data))
  }

  /** The test of checkNumberOfChars: the length is one of the accepted lengths (the
      empty item is tested as itself, which is no length). */
  predicate HasValidLength(item: string) {
    item != EmptyString && |item| in NumbersOfValidChars
  }

  /** checkNumberOfChars: keeps, in order, the items of an accepted length; fails when
      there is none. */
  function CheckNumberOfChars(data: seq<string>): (r: Result<seq<string>>)
    ensures r.Success? <==> exists i :: 0 <= i < |data| && HasValidLength(data[i])
    ensures r.Success? ==> r.value == Keep(HasValidLength, data)
    ensures r.Failure? ==> r.error == EmptyResult(AtNumberOfChars)
  {
    KeepNonEmpty(HasValidLength, data);
    NonEmpty(AtNumberOfChars, Keep(HasValidLength, data))
  }

  /** The accepted lengths: three (short codes) or seven to twelve; so of the numerals
      of one to fourteen digits, seven are kept. */
  lemma HasValidLengthMeans(item: string)
    ensures HasValidLength(item) <==> |item| == 3 || 7 <= |item| <= 12
  {
  }

  // ---------------------------------------------------------------------------------
  // The chain

  /** Promise.then for a stage: a failure is passed on, a batch goes to the stage. */
  function Then(r: Result<seq<string>>, stage: seq<string> -> Result<seq<string>>): (res: Result<seq<string>>)
    ensures r.Failure? ==> res == Failure(r.error)
    ensures r.Success? ==> res == stage(r.value)
  {
    match r
    case Failure(e) => Failure(e)
    case Success(v) => stage(v)
  }

  /** The chain of readAndValidateInputPath after the read: the six stages in their
      order. On success the batch is not empty and every item is digits only and of an
      accepted length; a failure names the first filter stage left with nothing, the map
      stages never failing since their input is never empty. */
  function Normalize(lines: seq<string>): (r: Result<seq<string>>)
    ensures r.Success? ==> r.value != [] && forall i :: 0 <= i < |r.value| ==> AllDigits(r.value[i]) && HasValidLength(r.value[i])
    ensures r.Failure? ==> r.error in {EmptyResult(AtInitialChars), EmptyResult(AtOnlyNumbers), EmptyResult(AtNumberOfChars)}
  {
    var r :=
      Then(Then(Then(Then(Then(CheckInitialChars(lines), RemoveBlankSpaces), RemovePlusSignal),
        RemoveZerosAtLeft), CheckOnlyNumbers), CheckNumberOfChars);
    r
  }

  /** What the three map stages do to one item, in their order. */
  function CleanItem(item: string): string {
    RemoveZeros(RemovePlus(RemoveBlanks(item)))
  }

  /** The items a run accepts at the end: digits only, of an accepted length. */
  predicate Accepted(item: string) {
    AllDigits(item) && HasValidLength(item)
  }

  /** The chain as one filter, one map and one filter: the items with valid initials,
      cleaned, and those of them that are accepted, in their order. The run fails at the
      first filter that leaves nothing. */
  lemma NormalizeIsFilterMapFilter(lines: seq<string>)
    ensures var s1 := Keep(HasValidInitial, lines);
            var s5 := Keep(AllDigits, Apply(CleanItem, s1));
            Normalize(lines) ==
              if s1 == [] then Failure(EmptyResult(AtInitialChars))
              else if s5 == [] then Failure(EmptyResult(AtOnlyNumbers))
              else if Keep(HasValidLength, s5) == [] then Failure(EmptyResult(AtNumberOfChars))
              else Success(Keep(Accepted, Apply(CleanItem, s1)))
  {
    var s1 := Keep(HasValidInitial, lines);
    var s4 := Apply(RemoveZeros, Apply(RemovePlus, Apply(RemoveBlanks, s1)));
    assert s4 == Apply(CleanItem, s1);
    var s5 := Keep(AllDigits, s4);
    KeepKeep(AllDigits, HasValidLength, Accepted, s4);
  }

  /** An item is in the output of a successful run exactly when some input line with
      valid initials cleans to it and it is accepted. */
  lemma NormalizeMembers(lines: seq<string>, x: string)
    requires Normalize(lines).Success?
    ensures x in Normalize(lines).value <==>
      Accepted(x) && exists i :: 0 <= i < |lines| && HasValidInitial(lines[i]) && CleanItem(lines[i]) == x
  {
    NormalizeIsFilterMapFilter(lines);
    var s := Apply(CleanItem, Keep(HasValidInitial, lines));
    assert Normalize(lines).value == Keep(Accepted, s);
    assert x in Keep(Accepted, s) <==> x in s && Accepted(x);
    ApplyKeepMember(HasValidInitial, CleanItem, lines, x);
  }

  /** readAndValidateInputPath: a missing or empty path fails first; otherwise the file is
      read as lines and the chain runs on them. */
  function ReadAndValidateInputPath(input: Option<string>, cwd: string, fs: FileSystem): (r: Result<seq<string>>)
    ensures (input.None? || input.value == "") ==> r == Failure(InvalidPath)
    ensures input.Some? && input.value != "" && ReadFile(cwd, fs, input).Failure? ==> r == Failure(ReadFile(cwd, fs, input).error)
    ensures input.Some? && input.value != "" && ReadFile(cwd, fs, input).Success? ==> r == Normalize(ReadFile(cwd, fs, input).value)
    ensures r.Success? ==> r.value != [] && forall i :: 0 <= i < |r.value| ==> Accepted(r.value[i])
  {
    if input.None? || input.value == EmptyString then Failure(InvalidPath)
    else Then(ReadFile(cwd, fs, input), Normalize)
  }

  /** The model reads first and then runs the whole chain on the lines; the code chains
      each stage directly onto the read. Both give the same result. */
  lemma ReadChainAsWritten(cwd: string, fs: FileSystem, input: Option<string>)
    requires input.Some? && input.value != ""
    ensures ReadAndValidateInputPath(input, cwd, fs)
         == Then(Then(Then(Then(Then(Then(ReadFile(cwd, fs, input), CheckInitialChars), RemoveBlankSpaces),
              RemovePlusSignal), RemoveZerosAtLeft), CheckOnlyNumbers), CheckNumberOfChars)
  {
  }

  /** The order of the stages matters. An item "+00..." is dropped by the first stage,
      so the plus and double-zero stages never see it ... */
  lemma DoubleZeroAfterPlusDropped(rest: string)
    ensures !HasValidInitial("+00" + rest)
    ensures Normalize(["+00" + rest]) == Failure(EmptyResult(AtInitialChars))
  {
    var item := "+00" + rest;
    HasValidInitialMeans(item);
    assert item[0] == '+' && item[1] == '0' && item[2] == '0';
    assert Keep(HasValidInitial, [item]) == [] + Keep(HasValidInitial, [item][1..]);
  }

  /** ... while "+0 0..." passes it and, once its blank is gone, loses the '+' and then
      the "00": an accepted number after "+0 0" comes out alone ... */
  lemma BlankHidesDoubleZero(d: string)
    requires Accepted(d)
    ensures Normalize(["+0 0" + d]) == Success([d])
  {
    var item := "+0 0" + d;
    assert HasValidInitial(item) by {
      HasValidInitialMeans(item);
      assert item[0] == '+' && item[1] == '0' && item[2] == ' ';
    }
    CleanOfBlankedZeros(d);
    NormalizeSingle(item, d);
  }

  /** A batch of one line with valid initials that cleans to an accepted number comes
      out as that number. */
  lemma NormalizeSingle(item: string, d: string)
    requires HasValidInitial(item) && CleanItem(item) == d && Accepted(d)
    ensures Normalize([item]) == Success([d])
  {
    KeepAll(HasValidInitial, [item]);
    assert Apply(CleanItem, [item]) == [d];
    KeepAll(AllDigits, [d]);
    KeepAll(HasValidLength, [d]);
    KeepAll(Accepted, [d]);
    NormalizeIsFilterMapFilter([item]);
  }

  lemma CleanOfBlankedZeros(d: string)
    requires AllDigits(d)
    ensures CleanItem("+0 0" + d) == d
  {
    BlankBetweenZeros(d);
    PlusBeforeZeros(d);
  }

  lemma BlankBetweenZeros(d: string)
    requires AllDigits(d)
    ensures RemoveBlanks("+0 0" + d) == "+00" + d
  {
    var item := "+0 0" + d;
    var a, b := item[..2], item[3..];
    assert item == a + [item[2]] + b;
    assert b == "0" + d;
    forall i | 0 <= i < |b|
      ensures NotBlank(b[i])
    {
      if i > 0 {
        assert b[i] == d[i - 1];
        assert IsDigit(d[i - 1]);
      }
    }
    KeepDropOne(NotBlank, a, item[2], b);
    assert a + b == "+00" + d;
  }

  /** ... and removing the zeros before the plus sign would leave the "00" in place. */
  lemma PlusBeforeZeros(d: string)
    ensures RemoveZeros(RemovePlus("+00" + d)) == d
    ensures RemovePlus(RemoveZeros("+00" + d)) == "00" + d
  {
    assert "+00" + d == "+" + ("00" + d);
    PlusRemoved("00" + d);
    ZerosRemoved(d);
    assert !StartsWith("+00" + d, "00") by {
      assert ("+00" + d)[0] == '+';
    }
  }

  lemma PlusRemoved(rest: string)
    ensures RemovePlus("+" + rest) == rest
  {
    var r := RemovePlus("+" + rest);
    assert StartsWith("+" + rest, PlusSignal);
    assert ("+" + r)[1..] == r;
  }

  lemma ZerosRemoved(rest: string)
    ensures RemoveZeros("00" + rest) == rest
  {
    var r := RemoveZeros("00" + rest);
    assert StartsWith("00" + rest, "00");
    assert ("00" + r)[2..] == r;
  }

  // ---------------------------------------------------------------------------------
  // Grouping

  /** lodash countBy on keys: each distinct key with the number of times it occurs. */
  function CountBy(keys: seq<string>): (r: map<string, nat>)
    ensures forall k :: k in r <==> k in keys
    ensures forall k :: k in r ==> r[k] == multiset(keys)[k]
    decreases |keys|
  {
    if keys == [] then map[]
    else
      var init := keys[..|keys| - 1];
      var k := keys[|keys| - 1];
      assert keys == init + [k];
      var m := CountBy(init);
      m[k := (if k in m then m[k] else 0) + 1]
  }

  /** One of the keys of a non-empty map. */
  ghost function Pick(m: map<string, nat>): string
    requires m != map[]
  {
    var k :| k in m; k
  }

  /** The sum of the counts of a map. */
  ghost function Total(m: map<string, nat>): nat
    decreases |m|
  {
    if m == map[] then 0
    else
      var k := Pick(m);
      assert |m - {k}| < |m| by {
        assert m.Keys == (m - {k}).Keys + {k};
      }
      m[k] + Total(m - {k})
  }

  /** The sum does not depend on which key is taken out first. */
  lemma {:induction false} TotalRemove(m: map<string, nat>, k: string)
    requires k in m
    ensures Total(m) == m[k] + Total(m - {k})
    decreases |m|
  {
    var j := Pick(m);
    if j != k {
      assert m.Keys == (m - {j}).Keys + {j};
      assert (m - {j}).Keys == (m - {j} - {k}).Keys + {k};
      TotalRemove(m - {j}, k);
      assert m.Keys == (m - {k}).Keys + {k};
      TotalRemove(m - {k}, j);
      assert m - {j} - {k} == m - {k} - {j};
    }
  }

  /** The counts of countBy add up to the number of keys counted. */
  lemma {:induction false} CountByTotal(keys: seq<string>)
    ensures Total(CountBy(keys)) == |keys|
    decreases |keys|
  {
    if keys != [] {
      var init := keys[..|keys| - 1];
      var k := keys[|keys| - 1];
      CountByTotal(init);
      var m := CountBy(init);
      assert CountBy(keys) == m[k := (if k in m then m[k] else 0) + 1];
      TotalIncrement(m, k);
    }
  }

  /** Counting one more occurrence of k adds one to the total. */
  lemma TotalIncrement(m: map<string, nat>, k: string)
    ensures Total(m[k := (if k in m then m[k] else 0) + 1]) == Total(m) + 1
  {
    var r := m[k := (if k in m then m[k] else 0) + 1];
    TotalRemove(r, k);
    if k in m {
      TotalRemove(m, k);
      assert r - {k} == m - {k};
    } else {
      assert r - {k} == m;
    }
  }

  /** NumberDto.build with the area-code list fixed, as data.map applies it. */
  function Classifier(areaCodes: seq<string>): string -> NumberDto {
    n => Build(areaCodes, n)
  }

  predicate IsValid(d: NumberDto) { d.valid }

  /** The key countBy gives a record: its area code as a property name (null when none). */
  function AreaCodeKey(d: NumberDto): string {
    if d.areaCode.Some? then d.areaCode.value else "null"
  }

  /** groupByAreaCode after its guard: classify, drop the invalid records, count by area code. */
  function CountAreaCodes(areaCodes: seq<string>, data: seq<string>): map<string, nat> {
    CountBy(Apply(AreaCodeKey, Keep(IsValid, Apply(Classifier(areaCodes), data))))
  }

  /** How many items of data build to a record with area code k: the count the report
      promises for k. */
  function CountCode(areaCodes: seq<string>, data: seq<string>, k: string): nat {
    |Keep(HasAreaCode(areaCodes, k), data)|
  }

  function HasAreaCode(areaCodes: seq<string>, k: string): string -> bool {
    n => Build(areaCodes, n).areaCode == Some(k)
  }

  function ValidIn(areaCodes: seq<string>): string -> bool {
    n => Build(areaCodes, n).valid
  }

  function KeyIn(areaCodes: seq<string>): string -> string {
    n => AreaCodeKey(Build(areaCodes, n))
  }

  /** The counted keys, fused: the area code of each valid item, in order. */
  lemma GroupedKeys(areaCodes: seq<string>, data: seq<string>)
    ensures Apply(AreaCodeKey, Keep(IsValid, Apply(Classifier(areaCodes), data)))
         == Apply(KeyIn(areaCodes), Keep(ValidIn(areaCodes), data))
  {
    KeepApply(IsValid, Classifier(areaCodes), ValidIn(areaCodes), data);
    ApplyApply(Classifier(areaCodes), AreaCodeKey, KeyIn(areaCodes), Keep(ValidIn(areaCodes), data));
  }

  /** Each key is counted as often as items build to that area code. */
  lemma CountAreaCodesCounts(areaCodes: seq<string>, data: seq<string>, k: string)
    ensures multiset(Apply(AreaCodeKey, Keep(IsValid, Apply(Classifier(areaCodes), data))))[k]
         == CountCode(areaCodes, data, k)
  {
    GroupedKeys(areaCodes, data);
    var valid := Keep(ValidIn(areaCodes), data);
    var eq := (n: string) => KeyIn(areaCodes)(n) == k;
    ApplyCount(KeyIn(areaCodes), valid, k, eq);
    KeepKeep(ValidIn(areaCodes), eq, HasAreaCode(areaCodes, k), data);
  }

  /** k is counted exactly when some item builds to area code k, and then as often as
      items do. */
  lemma CountAreaCodesKey(areaCodes: seq<string>, data: seq<string>, k: string)
    ensures k in CountAreaCodes(areaCodes, data) <==>
      exists i :: 0 <= i < |data| && Build(areaCodes, data[i]).areaCode == Some(k)
    ensures k in CountAreaCodes(areaCodes, data) ==> CountAreaCodes(areaCodes, data)[k] == CountCode(areaCodes, data, k)
  {
    CountAreaCodesCounts(areaCodes, data, k);
    var s := Keep(HasAreaCode(areaCodes, k), data);
    if exists i :: 0 <= i < |data| && Build(areaCodes, data[i]).areaCode == Some(k) {
      var i :| 0 <= i < |data| && Build(areaCodes, data[i]).areaCode == Some(k);
      assert HasAreaCode(areaCodes, k)(data[i]);
    }
    if s != [] {
      assert s[0] in data && HasAreaCode(areaCodes, k)(s[0]);
    }
  }

  /** groupByAreaCode: fails on an empty batch; otherwise a key exactly for each area code
      some item builds to, with the number of items that build to it. Invalid items add
      no key. */
  function GroupByAreaCode(data: seq<string>, areaCodes: seq<string>): (r: Result<map<string, nat>>)
    ensures r.Failure? <==> data == []
    ensures r.Failure? ==> r.error == NoData
    ensures r.Success? ==> forall k :: k in r.value <==>
      exists i :: 0 <= i < |data| && Build(areaCodes, data[i]).areaCode == Some(k)
    ensures r.Success? ==> forall k :: k in r.value ==> r.value[k] == CountCode(areaCodes, data, k)
  {
    if |data| == 0 then Failure(NoData)
    else
      var m := CountAreaCodes(areaCodes, data);
      assert forall k :: (k in m <==> exists i :: 0 <= i < |data| && Build(areaCodes, data[i]).areaCode == Some(k))
                         && (k in m ==> m[k] == CountCode(areaCodes, data, k)) by {
        forall k
          ensures k in m <==> exists i :: 0 <= i < |data| && Build(areaCodes, data[i]).areaCode == Some(k)
          ensures k in m ==> m[k] == CountCode(areaCodes, data, k)
        {
          CountAreaCodesKey(areaCodes, data, k);
        }
      }
      Success(m)
  }

  /** The counts add up to the number of valid items. */
  lemma GroupTotal(data: seq<string>, areaCodes: seq<string>)
    requires data != []
    ensures Total(GroupByAreaCode(data, areaCodes).value) == |Keep(ValidIn(areaCodes), data)|
  {
    GroupedKeys(areaCodes, data);
    CountByTotal(Apply(AreaCodeKey, Keep(IsValid, Apply(Classifier(areaCodes), data))));
  }

  /** Only the members of the area-code list matter, so its sort().reverse() does not
      change the counts. */
  lemma GroupMembershipOnly(data: seq<string>, a: seq<string>, b: seq<string>)
    requires forall x :: x in a <==> x in b
    ensures GroupByAreaCode(data, a) == GroupByAreaCode(data, b)
  {
    forall n | n in data
      ensures Build(a, n) == Build(b, n)
    {
      BuildMembershipOnly(a, b, n);
    }
    assert Apply(Classifier(a), data) == Apply(Classifier(b), data);
  }

  /** Grouping with the intended split gives the same counts: the skipped character of
      NumberDto.build never reaches the report. */
  lemma GroupIntendedSame(data: seq<string>, areaCodes: seq<string>)
    ensures CountBy(Apply(AreaCodeKey, Keep(IsValid, Apply((n: string) => BuildIntended(areaCodes, n), data))))
         == CountAreaCodes(areaCodes, data)
  {
    var ci := (n: string) => BuildIntended(areaCodes, n);
    KeepApply(IsValid, ci, ValidIn(areaCodes), data);
    ApplyApply(ci, AreaCodeKey, KeyIn(areaCodes), Keep(ValidIn(areaCodes), data));
    GroupedKeys(areaCodes, data);
  }

  /** The area code of a number of digits is digits, so a plain key. */
  lemma DigitsAreaCodeIsPlain(areaCodes: seq<string>, n: string)
    requires AllDigits(n) && Build(areaCodes, n).valid
    ensures PlainKey(Build(areaCodes, n).areaCode.value)
  {
    var k := Build(areaCodes, n).areaCode.value;
    BuildAreaCodeIsPrefix(areaCodes, n);
    forall j | 0 <= j < |k|
      ensures k[j] != ':' && !IsWhitespace(k[j])
    {
      assert k[j] == n[j];
      assert IsDigit(n[j]);
    }
  }

  /** A key of the grouping of normalised numbers is digits only, so the report can
      carry it and read it back. */
  lemma GroupKeysArePlain(data: seq<string>, areaCodes: seq<string>)
    requires data != []
    requires forall i :: 0 <= i < |data| ==> AllDigits(data[i])
    ensures forall k :: k in GroupByAreaCode(data, areaCodes).value ==> PlainKey(k)
  {
    var g := GroupByAreaCode(data, areaCodes).value;
    forall k | k in g
      ensures PlainKey(k)
    {
      var i :| 0 <= i < |data| && Build(areaCodes, data[i]).areaCode == Some(k);
      DigitsAreaCodeIsPlain(areaCodes, data[i]);
    }
  }

  // ---------------------------------------------------------------------------------
  // The run

  /** countNumbersByAreaCode: read and normalise the input, group by area code, write the
      report. A failure of any step is the run's failure; on success the result is the
      text written to the output file: the sorted report of the grouping, which reads back
      as its lines unless no number had an area code. */
  method CountNumbersByAreaCode(input: Option<string>, cwd: string, fs: FileSystem, areaCodes: seq<string>)
    returns (r: Result<string>)
    ensures r.Success? <==> ReadAndValidateInputPath(input, cwd, fs).Success?
    ensures r.Failure? ==> r.error == ReadAndValidateInputPath(input, cwd, fs).error
    ensures r.Success? ==>
      var grouped := GroupByAreaCode(ReadAndValidateInputPath(input, cwd, fs).value, areaCodes).value;
      exists ls :: IsReport(grouped, ls) && r.value == Terminated(ls) && (grouped != map[] ==> Lines(r.value) == ls)
  {
    var data := ReadAndValidateInputPath(input, cwd, fs);
    if data.Failure? {
      return Failure(data.error);
    }
    var grouped := GroupByAreaCode(data.value, areaCodes);
    GroupKeysArePlain(data.value, areaCodes);
    r := WriteOnFile(Some(grouped.value));
    ghost var ls :| IsReport(grouped.value, ls) && r.value == Terminated(ls);
    if grouped.value != map[] {
      ReportReadBack(grouped.value, ls);
    }
  }
}
