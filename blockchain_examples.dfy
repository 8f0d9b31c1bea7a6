/** Worked instances of the display rules: a height of 123456 and a
    history whose hashes end in `a`, `a` and `b`. */
module BlockchainInfoExamples {
  import opened JsText
  import opened BlockchainInfo

  lemma DecimalExample()
    ensures Decimal(123456) == "123456"
  {
    assert DigitChar(1) == '1' && DigitChar(2) == '2' && DigitChar(3) == '3';
    assert DigitChar(4) == '4' && DigitChar(5) == '5' && DigitChar(6) == '6';
    assert Decimal(12) == "1" + "2";
    assert Decimal(123) == "12" + "3";
    assert Decimal(1234) == "123" + "4";
    assert Decimal(12345) == "1234" + "5";
    assert Decimal(123456) == "12345" + "6";
  }

  lemma SeparatorExample()
    ensures InsertSeparators("123456") == "123,456"
  {
    SeparatorsAreGroups("123456");
    assert Groups("123456") == ["123", "456"] by {
      var d := "123456";
      assert d[..3] == "123" && d[3..] == "456";
    }
    assert JoinWith(["123", "456"], ',') == "123,456" by {
      assert ["123", "456"][..1] == ["123"];
    }
  }

  /** `formatBlockHeight(123456)` shows `123,456`. */
  lemma HeightExample()
    ensures FormatBlockHeight(Some(123456)) == "123,456"
  {
    DecimalExample();
    SeparatorExample();
  }

  /** A block that carries nothing but a hash. */
  function HashOnly(hash: string): BlockInfo
  {
    BlockInfo(None, Some(hash), None, None, None, None, None, None, None, None, None)
  }

  function SampleHistory(): seq<BlockInfo>
  {
    [HashOnly("00a"), HashOnly("00a"), HashOnly("00b")]
  }

  lemma SampleChars()
    ensures TrailingChars(FirstSixteen(SampleHistory())) == ['a', 'a', 'b']
  {
    var history := SampleHistory();
    assert FirstSixteen(history) == history;
    assert TrailingChars(history[2..]) == ['b'];
    assert TrailingChars(history[1..]) == ['a', 'b'];
  }

  lemma SampleFirstAppearance()
    ensures FirstAppearance(['a', 'a', 'b']) == ['a', 'b']
  {
    var cs := ['a', 'a', 'b'];
    assert cs[..2] == ['a', 'a'] && cs[..1] == ['a'] && cs[..0] == [];
    assert FirstAppearance(cs[..1]) == ['a'];
    assert FirstAppearance(cs[..2]) == ['a'];
  }

  lemma SampleTally()
    ensures var m := Tally(['a', 'a', 'b']); 'a' in m && m['a'] == 2 && 'b' in m && m['b'] == 1
  {
    var cs := ['a', 'a', 'b'];
    assert multiset(cs)['a'] == 2 && multiset(cs)['b'] == 1;
  }

  lemma SampleEntries()
    ensures SortByChar(TallyEntries(['a', 'a', 'b'])) == [('a', 2), ('b', 1)]
  {
    SampleFirstAppearance();
    SampleTally();
    var u: seq<(char, nat)> := [('a', 2), ('b', 1)];
    assert SortByChar(u[1..]) == [('b', 1)];
  }

  lemma SampleText()
    ensures JoinWith(EntryTexts([('a', 2), ('b', 1)]), ' ') == "a:2 b:1"
  {
    var u: seq<(char, nat)> := [('a', 2), ('b', 1)];
    assert Decimal(2) == "2" && Decimal(1) == "1";
    assert EntryText(u[0]) == "a:2" && EntryText(u[1]) == "b:1";
    assert u[1..][1..] == [];
    assert ["a:2", "b:1"][..1] == ["a:2"];
  }

  /** Two blocks whose hash ends in `a` and one ending in `b` give `a:2 b:1`. */
  lemma FrequencyExample()
    ensures LastCharFrequency(SampleHistory()) == "a:2 b:1"
  {
    SampleChars();
    SampleEntries();
    SampleText();
  }
}
