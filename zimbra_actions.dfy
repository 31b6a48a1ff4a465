/** The action half of the serializer in zimbra.py: `display_action` renders
    one (key, dict) pair of the action dict through a fixed dispatch on the
    key, and `display_actions` sorts the pairs by `index` and prints one line
    per action. */
module ZimbraActions {
  import opened Outcome
  import opened PySort
  import opened Records

  /** The reasons of the exceptions the action code raises. */
  const StrPlusTuple := "cannot concatenate a str and a tuple"
  const NoGetMethod := "only a dict has a get method"

  /** Every action line starts with three spaces: `print '  ',` leaves a
      pending space that the next print writes before the action. */
  const ActionIndent := "   "

  /** `display_action`: the script command for one action. A key outside the
      seven known ones reaches the fallback, whose `str + tuple` raises. A
      command ends with `;`; a known action fails only for want of the field
      it quotes. */
  function DisplayAction(key: string, e: Entry): (r: Result<string>)
    ensures r.Ok? <==> Renderable(key, e)
    ensures r.Err? ==> (r.error.TypeError? <==> key !in ActionTable)
    ensures r.Err? && key in ActionTable ==> r.error == KeyError(ActionTable[key].operand.value)
    ensures r.Ok? ==> |r.value| > 0 && r.value[|r.value| - 1] == ';'
  {
    if key == "actionFileInto" then
      if "folderPath" in e then Ok("fileinto \"" + e["folderPath"] + "\";") else Err(KeyError("folderPath"))
    else if key == "actionStop" then Ok("stop;")
    else if key == "actionRedirect" then
      if "a" in e then Ok("redirect \"" + e["a"] + "\";") else Err(KeyError("a"))
    else if key == "actionKeep" then Ok("keep;")
    else if key == "actionDiscard" then Ok("discard;")
    else if key == "actionFlag" then
      if "flagName" in e then Ok("flag \"" + e["flagName"] + "\";") else Err(KeyError("flagName"))
    else if key == "actionTag" then
      if "tagName" in e then Ok("tag \"" + e["tagName"] + "\";") else Err(KeyError("tagName"))
    else Err(TypeError(StrPlusTuple))
  }

  /** An action template: the command, and the dict field it quotes, if any. */
  datatype ActionTemplate = ActionTemplate(command: string, operand: Option<string>)

  /** The seven actions the serializer knows, as a table. */
  const ActionTable: map<string, ActionTemplate> := map[
    "actionFileInto" := ActionTemplate("fileinto", Some("folderPath")),
    "actionStop" := ActionTemplate("stop", None),
    "actionRedirect" := ActionTemplate("redirect", Some("a")),
    "actionKeep" := ActionTemplate("keep", None),
    "actionDiscard" := ActionTemplate("discard", None),
    "actionFlag" := ActionTemplate("flag", Some("flagName")),
    "actionTag" := ActionTemplate("tag", Some("tagName"))
  ]

  /** `<command>;` or `<command> "<operand>";`. */
  function Instantiate(t: ActionTemplate, e: Entry): Result<string>
  {
    match t.operand
    case None => Ok(t.command + ";")
    case Some(f) => if f in e then Ok(t.command + " \"" + e[f] + "\";") else Err(KeyError(f))
  }

  /** An action the serializer can render: a known key whose dict has the
      field its template quotes. */
  predicate Renderable(key: string, e: Entry)
  {
    key in ActionTable && (ActionTable[key].operand.Some? ==> ActionTable[key].operand.value in e)
  }

  /** The dispatch of `display_action` is the table: each known key renders
      through its template, any other key raises a TypeError. */
  lemma DisplayActionFollowsTable(key: string, e: Entry)
    ensures DisplayAction(key, e) ==
      if key in ActionTable then Instantiate(ActionTable[key], e) else Err(TypeError(StrPlusTuple))
    ensures DisplayAction(key, e).Ok? <==> Renderable(key, e)
  {
    assert "fileinto \"" == "fileinto" + " \"";
    assert "redirect \"" == "redirect" + " \"";
    assert "flag \"" == "flag" + " \"";
    assert "tag \"" == "tag" + " \"";
    assert "stop;" == "stop" + ";";
    assert "keep;" == "keep" + ";";
    assert "discard;" == "discard" + ";";
  }

  /** The sort key computation of `display_actions`: `x.get('index')` is called
      on every value, and only a dict has `get`, so a category holding a string
      or a list of dicts raises an AttributeError. */
  function AsDicts(actions: seq<(string, Field<Entry>)>): (r: Result<seq<(string, Entry)>>)
    ensures r.Ok? <==> forall i :: 0 <= i < |actions| ==> actions[i].1.One?
    ensures r.Err? ==> r.error == AttributeError(NoGetMethod)
    ensures r.Ok? ==> |r.value| == |actions|
    ensures r.Ok? ==> forall i :: 0 <= i < |actions| ==> r.value[i] == (actions[i].0, actions[i].1.d)
  {
    if |actions| == 0 then Ok([])
    else if !actions[0].1.One? then Err(AttributeError(NoGetMethod))
    else
      match AsDicts(actions[1..])
      case Err(e) => Err(e)
      case Ok(rest) => Ok([(actions[0].0, actions[0].1.d)] + rest)
  }

  function ActionKey(item: (string, Entry)): Key
  {
    IndexKey(item.1)
  }

  /** One printed action line: three spaces, then the command. */
  function ActionLine(item: (string, Entry)): (r: Result<string>)
    ensures r.Ok? <==> Renderable(item.0, item.1)
    ensures r.Ok? ==> |r.value| > 3 && r.value[..3] == ActionIndent && r.value[|r.value| - 1] == ';'
  {
    match DisplayAction(item.0, item.1)
    case Err(e) => Err(e)
    case Ok(command) => Ok(ActionIndent + command)
  }

  /** The lines `display_actions` prints: one per action, each indented. A
      category that is not a single dict raises before any action is looked
      at. */
  function ActionLines(actions: seq<(string, Field<Entry>)>): (r: Result<seq<string>>)
    ensures AsDicts(actions).Err? ==> r.Err? && r.error.AttributeError?
    ensures r.Ok? ==> |r.value| == |actions|
    ensures r.Ok? ==> forall i :: 0 <= i < |r.value| ==> |r.value[i]| > 3 && r.value[i][..3] == ActionIndent
  {
    match AsDicts(actions)
    case Err(e) => Err(e)
    case Ok(items) =>
      var sorted := SortBy(items, ActionKey);
      MapAllOk(sorted, ActionLine);
      MapAll(sorted, ActionLine)
  }

  /** `display_actions`: sorts the (key, dict) pairs by `index` and prints one
      line per action, stopping at the first action it cannot render. */
  method DisplayActions(actions: seq<(string, Field<Entry>)>) returns (r: Result<seq<string>>)
    ensures r == ActionLines(actions)
  {
    var items := AsDicts(actions);
    if items.Err? {
      return Err(items.error);
    }
    var a := SortBy(items.value, ActionKey);
    var lines: seq<string> := [];
    for i := 0 to |a|
      invariant MapAll(a[..i], ActionLine) == Ok(lines)
    {
      assert a[..i + 1][..i] == a[..i];
      var line := ActionLine(a[i]);
      if line.Err? {
        MapAllPrefixError(a, i + 1, ActionLine);
        return Err(line.error);
      }
      lines := lines + [line.value];
    }
    assert a[..|a|] == a;
    r := Ok(lines);
  }

  /** `display_actions` succeeds exactly when every category holds a single
      dict and every action is one of the seven known ones with its operand. */
  lemma ActionLinesOutcome(actions: seq<(string, Field<Entry>)>)
    ensures ActionLines(actions).Ok? <==>
      forall i :: 0 <= i < |actions| ==> actions[i].1.One? && Renderable(actions[i].0, actions[i].1.d)
  {
    var items := AsDicts(actions);
    if items.Ok? {
      var sorted := SortBy(items.value, ActionKey);
      SortByPermutes(items.value, ActionKey);
      MapAllOk(sorted, ActionLine);
      if ActionLines(actions).Ok? {
        forall i | 0 <= i < |actions|
          ensures Renderable(actions[i].0, actions[i].1.d)
        {
          assert items.value[i] in multiset(sorted);
          var j :| 0 <= j < |sorted| && sorted[j] == items.value[i];
          DisplayActionFollowsTable(sorted[j].0, sorted[j].1);
        }
      } else {
        var j :| 0 <= j < |sorted| && !ActionLine(sorted[j]).Ok?;
        DisplayActionFollowsTable(sorted[j].0, sorted[j].1);
        assert sorted[j] in multiset(items.value);
        var i :| 0 <= i < |items.value| && items.value[i] == sorted[j];
        assert !Renderable(actions[i].0, actions[i].1.d);
      }
    }
  }

  /** The actions are printed one per line, in non-decreasing `index` order
      compared as text; actions with equal indices keep the dict's iteration
      order. The printed actions are exactly the record's actions, each line
      three spaces and its command. */
  lemma ActionLinesInIndexOrder(actions: seq<(string, Field<Entry>)>)
    requires AsDicts(actions).Ok?
    ensures var items := AsDicts(actions).value;
      var sorted := SortBy(items, ActionKey);
      && |sorted| == |actions|
      && SortedBy(sorted, ActionKey)
      && multiset(sorted) == multiset(items)
      && (forall k :: Filter(sorted, ActionKey, k) == Filter(items, ActionKey, k))
      && (ActionLines(actions).Ok? ==>
            |ActionLines(actions).value| == |actions| &&
            forall i :: 0 <= i < |actions| ==>
              Ok(ActionLines(actions).value[i]) == ActionLine(sorted[i]) &&
              ActionLines(actions).value[i] == ActionIndent + DisplayAction(sorted[i].0, sorted[i].1).value)
  {
    var items := AsDicts(actions).value;
    var sorted := SortBy(items, ActionKey);
    SortBySorted(items, ActionKey);
    SortByPermutes(items, ActionKey);
    forall k
      ensures Filter(sorted, ActionKey, k) == Filter(items, ActionKey, k)
    {
      SortByStable(items, ActionKey, k);
    }
    assert |multiset(sorted)| == |multiset(items)|;
    MapAllOk(sorted, ActionLine);
  }

  /** The action dict's iteration order, which Python 2 leaves to hashing,
      does not change the output once every action has its own `index`. */
  lemma ActionOrderIrrelevant(a1: seq<(string, Field<Entry>)>, a2: seq<(string, Field<Entry>)>)
    requires AsDicts(a1).Ok? && AsDicts(a2).Ok?
    requires forall x :: x in AsDicts(a1).value <==> x in AsDicts(a2).value
    requires DistinctKeys(AsDicts(a1).value, ActionKey) && DistinctKeys(AsDicts(a2).value, ActionKey)
    ensures ActionLines(a1) == ActionLines(a2)
  {
    SortIgnoresOrder(AsDicts(a1).value, AsDicts(a2).value, ActionKey);
  }
}
