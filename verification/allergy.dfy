/** The allergen list (`src/services/allergyService.js`): the nineteen
    allergens the NEIS menu codes refer to, and the text listing them one
    per line. */
module Allergy {
  import opened Wrappers
  import opened Text
  import opened Seqs
  import opened Js

  datatype AllergyItem = AllergyItem(code: nat, name: string)

  /** `ALLERGY_ITEMS`, in the file's order. */
  const AllergyItems: seq<AllergyItem> := [
    AllergyItem(1, "난류(계란)"),
    AllergyItem(2, "우유"),
    AllergyItem(3, "메밀"),
    AllergyItem(4, "땅콩"),
    AllergyItem(5, "대두"),
    AllergyItem(6, "밀"),
    AllergyItem(7, "고등어"),
    AllergyItem(8, "게"),
    AllergyItem(9, "새우"),
    AllergyItem(10, "돼지고기"),
    AllergyItem(11, "복숭아"),
    AllergyItem(12, "토마토"),
    AllergyItem(13, "아황산류(10mg/kg 이상)"),
    AllergyItem(14, "호두"),
    AllergyItem(15, "닭고기"),
    AllergyItem(16, "쇠고기"),
    AllergyItem(17, "오징어"),
    AllergyItem(18, "조개류(굴, 전복, 홍합 등)"),
    AllergyItem(19, "잣")
  ]

  /** One line of the list: `${code}. ${name}`. */
  function AllergyLine(item: AllergyItem): string {
    NatToString(item.code) + ". " + item.name
  }

  /** `getAllergyListText`. */
  function AllergyListText(): string {
    Join(Map(AllergyItems, AllergyLine), "\n")
  }

  /** The reading of one line: the numeral before the dot and the name
      after the dot and its space. */
  function ParseLine(line: string): (r: Option<AllergyItem>)
    ensures r.Some? ==> exists numeral :: '.' !in numeral && ToNumber(numeral) == Some(r.value.code)
                                          && line == numeral + ". " + r.value.name
  {
    var parts := Split(line, '.');
    if |parts| != 2 || |parts[1]| == 0 || parts[1][0] != ' ' then None
    else match ToNumber(parts[0])
      case None => None
      case Some(n) =>
        DotSpaceParts(line, parts);
        Some(AllergyItem(n, parts[1][1..]))
  }

  /** A line split at its one dot, with a space after the dot, is the
      numeral, `. ` and the rest. */
  lemma DotSpaceParts(line: string, parts: seq<string>)
    requires parts == Split(line, '.') && |parts| == 2 && |parts[1]| > 0 && parts[1][0] == ' '
    ensures '.' !in parts[0] && line == parts[0] + ". " + parts[1][1..]
  {
    assert parts[1] == " " + parts[1][1..];
    assert parts[1..] == [parts[1]];
    assert Join(parts[1..], ".") == parts[1];
    assert line == parts[0] + "." + parts[1];
  }

  /** The codes are 1 to 19 in order, so the code is the position plus one
      and no code names two allergens. */
  lemma TableShape()
    ensures |AllergyItems| == 19
    ensures forall i :: 0 <= i < |AllergyItems| ==> AllergyItems[i].code == i + 1
    ensures forall i, j :: 0 <= i < j < |AllergyItems| ==> AllergyItems[i].code != AllergyItems[j].code
  {
  }

  /** A line reads back as its item when the name has no dot. */
  lemma LineReadsBack(item: AllergyItem)
    requires '.' !in item.name
    ensures ParseLine(AllergyLine(item)) == Some(item)
  {
    var a := NatToString(item.code);
    assert '.' !in a by {
      assert forall k :: 0 <= k < |a| ==> IsDigit(a[k]);
    }
    ToNumberOfNumeral(item.code);
    NumeralLineParses(a, item.code, item.name);
  }

  /** A numeral without a dot, `. ` and a name without a dot parse as the
      numeral's value and the name. */
  lemma NumeralLineParses(a: string, n: nat, name: string)
    requires '.' !in a && '.' !in name && ToNumber(a) == Some(n)
    ensures ParseLine(a + ". " + name) == Some(AllergyItem(n, name))
  {
    var b := " " + name;
    assert a + ". " + name == Join([a, b], ".") by {
      assert [a, b][1..] == [b];
    }
    assert '.' !in b;
    SplitJoin([a, b], '.');
    assert b[1..] == name;
  }

  /** No name holds a dot or a line break. */
  lemma NamesArePlain()
    ensures forall i :: 0 <= i < |AllergyItems| ==> Plain(AllergyItems[i].name)
  {
    forall i | 0 <= i < |AllergyItems| ensures Plain(AllergyItems[i].name) {
      if i < 10 {
        EarlyNamesPlain(i);
      } else if i == 12 {
        SulfitesPlain();
      } else if i == 17 {
        ShellfishPlain();
      } else {
        LateNamesPlain(i);
      }
    }
  }

  /** Neither the dot a line is split at nor a line break. */
  predicate Plain(s: string) {
    '.' !in s && '\n' !in s
  }

  // The table's names in groups, the two long ones alone.

  lemma EarlyNamesPlain(i: nat)
    requires i < 10
    ensures Plain(AllergyItems[i].name)
  {
  }

  lemma LateNamesPlain(i: nat)
    requires 10 <= i < 19 && i != 12 && i != 17
    ensures Plain(AllergyItems[i].name)
  {
  }

  lemma SulfitesPlain()
    ensures Plain(AllergyItems[12].name)
  {
    assert '.' !in AllergyItems[12].name;
  }

  lemma ShellfishPlain()
    ensures Plain(AllergyItems[17].name)
  {
    assert '.' !in AllergyItems[17].name;
  }

  /** The list text reads back as the table: split at the line breaks, it
      has one line per allergen, and each line parses as that allergen. */
  lemma ListReadsBack()
    ensures |Split(AllergyListText(), '\n')| == |AllergyItems|
    ensures forall i :: 0 <= i < |AllergyItems| ==>
      ParseLine(Split(AllergyListText(), '\n')[i]) == Some(AllergyItems[i])
  {
    NamesArePlain();
    var lines := Map(AllergyItems, AllergyLine);
    forall i | 0 <= i < |lines| ensures '\n' !in lines[i] {
      var a := NatToString(AllergyItems[i].code);
      assert forall k :: 0 <= k < |a| ==> IsDigit(a[k]);
      assert lines[i] == a + ". " + AllergyItems[i].name;
    }
    SplitJoin(lines, '\n');
    forall i | 0 <= i < |AllergyItems| ensures ParseLine(lines[i]) == Some(AllergyItems[i]) {
      LineReadsBack(AllergyItems[i]);
    }
  }
}
