/** The rule of the repository's integration test (test_zimbra.py), as this
    version of the serializer renders its tests and its actions. */
module Scenario {
  import opened Outcome
  import opened PySort
  import opened Records
  import opened ZimbraTests
  import opened ZimbraActions

  /** The redirect address of the test rule. */
  const Address := "example@example.com"

  /** The seven actions of the test rule, each as a (key, dict) pair. */
  const Keep: (string, Entry) := ("actionKeep", map["index" := "0"])
  const Tag: (string, Entry) := ("actionTag", map["index" := "1", "tagName" := "Old"])
  const Flag: (string, Entry) := ("actionFlag", map["index" := "2", "flagName" := "read"])
  const FileInto: (string, Entry) := ("actionFileInto", map["index" := "3", "folderPath" := ".pipe"])
  const Redirect: (string, Entry) := ("actionRedirect", map["a" := Address, "index" := "4"])
  const Discard: (string, Entry) := ("actionDiscard", map["index" := "5"])
  const Stop: (string, Entry) := ("actionStop", map["index" := "6"])

  /** An action dict whose every category holds a single dict. */
  function Singles(items: seq<(string, Entry)>): (actions: seq<(string, Field<Entry>)>)
    ensures |actions| == |items|
  {
    if |items| == 0 then [] else [(items[0].0, One(items[0].1))] + Singles(items[1..])
  }

  /** Reading such a dict through `get` gives its pairs back. */
  lemma {:induction false} SinglesRead(items: seq<(string, Entry)>)
    ensures AsDicts(Singles(items)) == Ok(items)
  {
    if |items| > 0 {
      SinglesRead(items[1..]);
      assert Singles(items)[1..] == Singles(items[1..]);
      assert items == [items[0]] + items[1..];
    }
  }

  /** The action dict of the test rule, in the order the test writes it. */
  const DummyActions: seq<(string, Field<Entry>)> :=
    Singles([Redirect, Tag, FileInto, Flag, Discard, Keep, Stop])

  /** The same actions in `index` order. */
  const DummyInIndexOrder: seq<(string, Entry)> := [Keep, Tag, Flag, FileInto, Redirect, Discard, Stop]

  /** The lines the serializer prints for them. */
  const DummyLines: seq<string> := [
    "   keep;", "   tag \"Old\";", "   flag \"read\";", "   fileinto \".pipe\";",
    "   redirect \"" + Address + "\";", "   discard;", "   stop;"]

  lemma DummyKeys()
    ensures ActionKey(Keep) == Some("0") && ActionKey(Tag) == Some("1")
    ensures ActionKey(Flag) == Some("2") && ActionKey(FileInto) == Some("3")
    ensures ActionKey(Redirect) == Some("4") && ActionKey(Discard) == Some("5")
    ensures ActionKey(Stop) == Some("6")
  {
  }

  /** The actions in `index` order are sorted, with no index twice. */
  lemma DummyInIndexOrderKeys()
    ensures SortedBy(DummyInIndexOrder, ActionKey)
    ensures DistinctKeys(DummyInIndexOrder, ActionKey)
  {
    var s := DummyInIndexOrder;
    var digits := "0123456";
    DummyKeys();
    assert forall i :: 0 <= i < |s| ==> ActionKey(s[i]) == Some([digits[i]]);
    forall i, j | 0 <= i < j < |s|
      ensures KeyLe(ActionKey(s[i]), ActionKey(s[j]))
      ensures ActionKey(s[i]) != ActionKey(s[j])
    {
      assert digits[i] < digits[j];
    }
  }

  /** The test's order holds the same actions, again with no index twice. */
  lemma DummyItemsKeys()
    ensures DistinctKeys([Redirect, Tag, FileInto, Flag, Discard, Keep, Stop], ActionKey)
  {
    var items := [Redirect, Tag, FileInto, Flag, Discard, Keep, Stop];
    var order := "4132506";
    DummyKeys();
    assert forall i :: 0 <= i < |items| ==> ActionKey(items[i]) == Some([order[i]]);
    forall i, j | 0 <= i < j < |items|
      ensures ActionKey(items[i]) != ActionKey(items[j])
    {
      assert order[i] != order[j];
    }
  }

  /** `list.sort` puts the test rule's actions in `index` order. */
  lemma DummySorted()
    ensures AsDicts(DummyActions).Ok?
    ensures SortBy(AsDicts(DummyActions).value, ActionKey) == DummyInIndexOrder
  {
    SinglesRead([Redirect, Tag, FileInto, Flag, Discard, Keep, Stop]);
    DummyItemsKeys();
    DummyInIndexOrderKeys();
    SortIgnoresOrder(AsDicts(DummyActions).value, DummyInIndexOrder, ActionKey);
    SortByKeepsSorted(DummyInIndexOrder, ActionKey);
  }

  lemma DummyBareLines()
    ensures ActionLine(Keep) == Ok(DummyLines[0])
    ensures ActionLine(Discard) == Ok(DummyLines[5])
    ensures ActionLine(Stop) == Ok(DummyLines[6])
  {
    assert ActionIndent + "keep;" == DummyLines[0];
    assert ActionIndent + "discard;" == DummyLines[5];
    assert ActionIndent + "stop;" == DummyLines[6];
  }

  lemma DummyMarkLines()
    ensures ActionLine(Tag) == Ok(DummyLines[1])
    ensures ActionLine(Flag) == Ok(DummyLines[2])
  {
    assert ActionIndent + ("tag \"" + "Old" + "\";") == DummyLines[1];
    assert ActionIndent + ("flag \"" + "read" + "\";") == DummyLines[2];
  }

  lemma DummyFileIntoLine()
    ensures ActionLine(FileInto) == Ok(DummyLines[3])
  {
    assert ActionIndent + ("fileinto \"" + ".pipe" + "\";") == DummyLines[3];
  }

  lemma DummyRedirectLine()
    ensures ActionLine(Redirect) == Ok(DummyLines[4])
  {
    assert ActionIndent + "redirect \"" == "   redirect \"";
    assert ActionIndent + ("redirect \"" + Address + "\";") == "   redirect \"" + Address + "\";";
  }

  /** Each action of the test rule, in `index` order, renders as its line. */
  lemma DummyLinesInOrder()
    ensures forall i :: 0 <= i < |DummyInIndexOrder| ==> ActionLine(DummyInIndexOrder[i]) == Ok(DummyLines[i])
  {
    DummyBareLines();
    DummyMarkLines();
    DummyFileIntoLine();
    DummyRedirectLine();
  }

  /** Every action of the test rule renders, in `index` order, each with its
      operand. */
  lemma DummyActionsRender()
    ensures ActionLines(DummyActions) == Ok(DummyLines)
  {
    DummySorted();
    DummyLinesInOrder();
    MapAllEach(DummyInIndexOrder, ActionLine, DummyLines);
  }

  /** Indices are compared as text, not as numbers: an action at index "10"
      is printed before one at index "2". */
  lemma IndexComparedAsText()
    ensures ActionLines([("actionKeep", One(map["index" := "2"])), ("actionStop", One(map["index" := "10"]))])
      == Ok(["   stop;", "   keep;"])
  {
    var keep: (string, Entry) := ("actionKeep", map["index" := "2"]);
    var stop: (string, Entry) := ("actionStop", map["index" := "10"]);
    SinglesRead([keep, stop]);
    assert Singles([keep, stop]) == [("actionKeep", One(keep.1)), ("actionStop", One(stop.1))];
    assert ActionKey(keep) == Some("2") && ActionKey(stop) == Some("10");
    assert !KeyLe(ActionKey(keep), ActionKey(stop));
    assert SortBy([keep, stop], ActionKey) == [stop, keep] by {
      assert [keep, stop][1..] == [stop];
      assert SortBy([stop], ActionKey) == [stop];
      assert Insert(keep, [stop], ActionKey) == [stop] + Insert(keep, [], ActionKey);
    }
    assert ActionIndent + "stop;" == "   stop;";
    assert ActionIndent + "keep;" == "   keep;";
    MapAllOk([stop, keep], ActionLine);
    var lines := MapAll([stop, keep], ActionLine).value;
    assert lines == ["   stop;", "   keep;"];
  }

  // ----- the test block -----

  /** The size test of the test rule, with the `test` field that
      `transform_tests` writes into it. */
  const Size: Entry := map["numberComparison" := "over", "index" := "4", "s" := "10M", "test" := "size"]

  /** The size is printed as stored: `10M`, not a number of bytes. */
  lemma SizePrintedAsStored()
    ensures ShowTest(Size) == Ok("   size :over 10M")
  {
    SizeLine(Size);
    assert !Negated(Size);
    assert Indent + "" + ("size :" + ("over" + " " + "10M")) == "   size :over 10M";
  }

  /** The test dict of the test rule, its leaf dicts given as objects. */
  function DummyTestDict(headers: seq<Dict>, size: Dict, body: Dict, date: Dict, exists_: Dict): map<string, Field<Dict>>
  {
    map["bodyTest" := One(body), "dateTest" := One(date), "headerTest" := Many(headers),
        "sizeTest" := One(size), "condition" := Text("allof"), "headerExistsTest" := One(exists_)]
  }

  /** Of the test rule's six test categories only the header tests and the
      size test are gathered: its date, body and header-existence tests never
      reach the output. Both categories are processed. */
  lemma DummyTestsGathered(headers: seq<Dict>, size: Dict, body: Dict, date: Dict, exists_: Dict)
    ensures var tests := DummyTestDict(headers, size, body, date, exists_);
      && Collected(tests) == headers + [size]
      && Processed(tests) == |TestCategories|
      && Reached(tests) == |TestCategories|
  {
    var tests := DummyTestDict(headers, size, body, date, exists_);
    CollectedCategories(tests);
    assert Category(tests, "headerTest") == headers;
    assert Category(tests, "sizeTest") == [size];
    assert !HoldsString(tests, TestCategories[0]) && !HoldsString(tests, TestCategories[1]);
  }
}
