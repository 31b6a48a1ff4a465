/** `display_rule` in zimbra.py: the text of one filter rule, `# <name>`, an
    optional `# inactive`, then `if <condition> ( <tests> ) { <actions> }`.
    The output that the source prints is modelled as the returned text. */
module ZimbraRule {
  import opened Outcome
  import opened PyString
  import opened Records
  import opened ZimbraTests
  import opened ZimbraActions

  const InactiveLine := "# inactive\n"

  /** The first printed line: `# <name>`. */
  function NameLine(name: string): string
  {
    "# " + name + "\n"
  }

  /** What `display_rule` prints for a rule whose test block `display_test`
      printed as `testText` and whose action lines are `actionLines`. The
      trailing comma of `print 'if',` and `print ')',` leaves a pending space
      that the next print writes, hence `if <condition>` and `) {`. */
  function RuleText(name: string, active: string, testText: string, actionLines: seq<string>): (r: string)
    ensures |r| >= 2 && r[..2] == "# " && r[|r| - 2..] == "}\n"
  {
    NameLine(name) + (if active == "0" then InactiveLine else "")
    + ("if " + testText + " {\n" + Unlines(actionLines) + "}\n")
  }

  /** What `display_rule` returns, given the test dicts' current contents:
      the rule's text when both halves render, otherwise the exception of the
      test block, which comes first, or else that of the actions. */
  function RuleOutput(rule: Rule): (r: Result<string>)
    reads TestObjects(rule.filterTests)
    ensures r.Ok? <==> TestText(rule.filterTests).Ok? && ActionLines(rule.filterActions).Ok?
    ensures TestText(rule.filterTests).Err? ==> r == Err(TestText(rule.filterTests).error)
    ensures TestText(rule.filterTests).Ok? && ActionLines(rule.filterActions).Err? ==>
      r == Err(ActionLines(rule.filterActions).error)
    ensures r.Ok? ==> |r.value| >= 2 && r.value[..2] == "# " && r.value[|r.value| - 2..] == "}\n"
  {
    match TestText(rule.filterTests)
    case Err(e) => Err(e)
    case Ok(testText) =>
      match ActionLines(rule.filterActions)
      case Err(e) => Err(e)
      case Ok(actionLines) => Ok(RuleText(rule.name, rule.active, testText, actionLines))
  }

  /** `display_rule`. The tests are rendered, and their dicts tagged, before
      the actions are looked at. */
  method DisplayRule(rule: Rule) returns (r: Result<string>)
    modifies TestObjects(rule.filterTests)
    ensures Retags(rule.filterTests, Reached(rule.filterTests))
    ensures r == RuleOutput(rule)
  {
    var testText := DisplayTest(rule.filterTests);
    if testText.Err? {
      return Err(testText.error);
    }
    TestObjectsAllocated(rule.filterTests);
    var actionLines := DisplayActions(rule.filterActions);
    if actionLines.Err? {
      r := Err(actionLines.error);
    } else {
      r := Ok(RuleText(rule.name, rule.active, testText.value, actionLines.value));
    }
  }

  /** The text opens with `# <name>`; the `# inactive` line follows exactly
      when `active` is "0", and the `if` line comes next either way. */
  lemma RuleTextHead(name: string, active: string, testText: string, actionLines: seq<string>)
    ensures var text := RuleText(name, active, testText, actionLines);
      var rest := text[|NameLine(name)|..];
      && text[..|NameLine(name)|] == NameLine(name)
      && (|rest| >= |InactiveLine| && rest[..|InactiveLine|] == InactiveLine <==> active == "0")
      && (active == "0" ==> rest[|InactiveLine|..][..3] == "if ")
      && (active != "0" ==> rest[..3] == "if ")
  {
    var body := "if " + testText + " {\n" + Unlines(actionLines) + "}\n";
    var rest := (if active == "0" then InactiveLine else "") + body;
    assert RuleText(name, active, testText, actionLines) == NameLine(name) + rest;
    assert body[..3] == "if ";
    if active == "0" {
      assert rest[|InactiveLine|..] == body;
    } else {
      assert rest == body;
      assert rest[0] == 'i' != InactiveLine[0];
    }
  }

  /** The test block follows `if ` directly, and ` {` and a newline follow
      it: `print ')',` leaves the pending space before the `{` of the next
      print. */
  lemma RuleTextTestBlock(name: string, active: string, testText: string, actionLines: seq<string>)
    ensures var text := RuleText(name, active, testText, actionLines);
      var o := |NameLine(name)| + (if active == "0" then |InactiveLine| else 0) + 3;
      && o + |testText| + 3 <= |text|
      && text[o - 3..o] == "if "
      && text[o..o + |testText|] == testText
      && text[o + |testText|..o + |testText| + 3] == " {\n"
  {
    var head := NameLine(name) + (if active == "0" then InactiveLine else "");
    var tail := Unlines(actionLines) + "}\n";
    var text := RuleText(name, active, testText, actionLines);
    assert text == head + "if " + testText + " {\n" + tail;
    var o := |head| + 3;
    assert text[o - 3..o] == "if ";
    assert text[o..o + |testText|] == testText;
    assert text[o + |testText|..o + |testText| + 3] == " {\n";
  }

  /** The text closes with the action lines, each ended by a newline, and `}`. */
  lemma RuleTextTail(name: string, active: string, testText: string, actionLines: seq<string>)
    ensures var text := RuleText(name, active, testText, actionLines);
      var tail := Unlines(actionLines) + "}\n";
      |text| >= |tail| && text[|text| - |tail|..] == tail
  {
    var text := RuleText(name, active, testText, actionLines);
    var tail := Unlines(actionLines) + "}\n";
    var front := NameLine(name) + (if active == "0" then InactiveLine else "") + ("if " + testText + " {\n");
    assert text == front + tail;
  }

  /** After the `{` line, each action line sits in order on a line of its
      own, and `}` closes the text. */
  lemma RuleTextActionLayout(name: string, active: string, testText: string, actionLines: seq<string>)
    requires |actionLines| > 0
    ensures var front := NameLine(name) + (if active == "0" then InactiveLine else "") + ("if " + testText + " {\n");
      LaidOut(RuleText(name, active, testText, actionLines), front, actionLines, "\n", "\n}\n")
  {
    var front := NameLine(name) + (if active == "0" then InactiveLine else "") + ("if " + testText + " {\n");
    UnlinesIsJoin(actionLines);
    assert RuleText(name, active, testText, actionLines) == front + Join(actionLines, "\n") + "\n}\n";
    BlockLayout(front, actionLines, "\n", "\n}\n");
  }
}
