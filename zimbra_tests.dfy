/** The test half of the serializer in zimbra.py: `show_test` renders one test
    dict as a line of script, `transform_tests` gathers the header and size
    tests, tags each with its kind, sorts them by `index` and renders them, and
    `display_test` wraps the lines in `<condition> ( ... )`. */
module ZimbraTests {
  import opened Outcome
  import opened PyString
  import opened PySort
  import opened Records

  /** Every test line starts with three spaces. */
  const Indent := "   "

  const CaseMapComparator := " :comparator \"i;ascii-casemap\""

  /** The reasons of the TypeErrors the test code raises. */
  const StrPlusDict := "cannot concatenate a str and a dict"
  const ItemAssignment := "a string does not support item assignment"
  const ConditionNotString := "the condition is not a string"

  /** The test kinds `show_test` knows. */
  const KnownKinds: set<string> := {"size", "header", "address"}

  predicate Negated(t: Entry)
  {
    Get(t, "negative") == Some("1")
  }

  /** The line carries `not ` right after its indentation. */
  predicate StartsNegated(line: string)
  {
    |line| >= 7 && line[3..7] == "not "
  }

  /** The operand fields the template of the entry's kind reads. */
  predicate HasOperands(t: Entry)
  {
    "test" in t &&
    match t["test"]
    case "size" => "numberComparison" in t && "s" in t
    case "header" => "stringComparison" in t && "header" in t && "value" in t
    case "address" => "stringComparison" in t && "part" in t && "header" in t && "value" in t
    case _ => false
  }

  /** The bracketed list of quoted header names, from the comma-separated
      `header` field. */
  function HeaderList(names: string): string
  {
    " [\"" + Join(Split(names, ','), "\", \"") + "\"]"
  }

  /** What `show_test` appends after the indentation and the negation: the
      fixed template of the entry's kind. */
  function TestTemplate(t: Entry): (r: Result<string>)
    ensures r.Ok? ==> |r.value| >= 4 && r.value[..4] in {"size", "head", "addr"}
  {
    if "test" !in t then Err(KeyError("test"))
    else if t["test"] == "size" then
      if "numberComparison" !in t then Err(KeyError("numberComparison"))
      else if "s" !in t then Err(KeyError("s"))
      else
        var line := "size :" + (t["numberComparison"] + " " + t["s"]);
        PrefixKept("size :", t["numberComparison"] + " " + t["s"], 4);
        assert "size :"[..4] == "size";
        Ok(line)
    else if t["test"] != "header" && t["test"] != "address" then
      Err(TypeError(StrPlusDict))
    else if "stringComparison" !in t then Err(KeyError("stringComparison"))
    else if t["test"] == "address" && "part" !in t then Err(KeyError("part"))
    else if "header" !in t then Err(KeyError("header"))
    else if "value" !in t then Err(KeyError("value"))
    else
      var kind :=
        if t["test"] == "header" then "header :" + t["stringComparison"]
        else "address :" + (t["stringComparison"] + " :" + t["part"]);
      var comparator := if Get(t, "caseSensitive") == Some("1") then CaseMapComparator else "";
      var rest := comparator + HeaderList(t["header"]) + " [\"" + t["value"] + "\"]";
      if t["test"] == "header" then
        PrefixKept("header :", t["stringComparison"], 4);
        PrefixKept(kind, rest, 4);
        assert "header :"[..4] == "head";
        Ok(kind + rest)
      else
        PrefixKept("address :", t["stringComparison"] + " :" + t["part"], 4);
        PrefixKept(kind, rest, 4);
        assert "address :"[..4] == "addr";
        Ok(kind + rest)
  }

  lemma PrefixKept(a: string, b: string, n: nat)
    requires n <= |a|
    ensures (a + b)[..n] == a[..n]
  {
  }

  lemma NegationMarker(negated: bool, body: string)
    requires |body| >= 4 && body[..4] in {"size", "head", "addr"}
    ensures StartsNegated(Indent + (if negated then "not " else "") + body) <==> negated
  {
    var line := Indent + (if negated then "not " else "") + body;
    if !negated {
      assert line[3..7] == body[..4];
    }
  }

  /** `show_test`: one test dict as a line of script. */
  function ShowTest(t: Entry): (r: Result<string>)
    ensures r.Ok? ==> |r.value| >= 3 && r.value[..3] == Indent
    ensures r.Ok? ==> (StartsNegated(r.value) <==> Negated(t))
  {
    match TestTemplate(t)
    case Err(e) => Err(e)
    case Ok(body) =>
      NegationMarker(Negated(t), body);
      Ok(Indent + (if Negated(t) then "not " else "") + body)
  }

  /** `show_test` succeeds exactly on an entry of a known kind that carries the
      operands of its kind, and it raises a TypeError (the `str + dict` of its
      fallback) exactly on an entry of an unknown kind. */
  lemma ShowTestOutcome(t: Entry)
    ensures ShowTest(t).Ok? <==> "test" in t && t["test"] in KnownKinds && HasOperands(t)
    ensures ShowTest(t).Err? && ShowTest(t).error.TypeError? <==>
            "test" in t && t["test"] !in KnownKinds
    ensures ShowTest(t).Err? && !ShowTest(t).error.TypeError? ==> ShowTest(t).error.KeyError?
  {
  }

  /** A size line is `size :<numberComparison> <s>`, the size copied verbatim
      with no unit conversion. */
  lemma SizeLine(t: Entry)
    requires Get(t, "test") == Some("size")
    requires "numberComparison" in t && "s" in t
    ensures ShowTest(t) ==
      Ok(Indent + (if Negated(t) then "not " else "") + ("size :" + (t["numberComparison"] + " " + t["s"])))
  {
  }

  /** A header line is `header :<stringComparison>`, the case-map comparator
      exactly when `caseSensitive` is "1", the names of the `header` field
      quoted in a bracketed list, and the quoted value in brackets. The names
      in the list are the comma-free pieces of the field, and joined with
      commas they give the field back. */
  lemma HeaderLine(t: Entry)
    requires Get(t, "test") == Some("header")
    requires "stringComparison" in t && "header" in t && "value" in t
    ensures ShowTest(t) ==
      Ok(Indent + (if Negated(t) then "not " else "") + ("header :" + t["stringComparison"]
         + ((if Get(t, "caseSensitive") == Some("1") then CaseMapComparator else "")
            + HeaderList(t["header"]) + " [\"" + t["value"] + "\"]")))
    ensures var names := Split(t["header"], ',');
      && HeaderList(t["header"]) == " [\"" + Join(names, "\", \"") + "\"]"
      && Join(names, ",") == t["header"]
      && |names| == multiset(t["header"])[','] + 1
      && forall i :: 0 <= i < |names| ==> ',' !in names[i]
  {
  }

  /** An entry tagged `header` or `size`, as `transform_tests` tags them, never
      reaches the address branch or the unknown-kind fallback: rendering it
      fails only on a missing operand. */
  lemma TaggedNeverUnknown(t: Entry)
    requires Get(t, "test") in {Some("header"), Some("size")}
    ensures ShowTest(t).Ok? <==> HasOperands(t)
    ensures ShowTest(t).Err? ==> ShowTest(t).error.KeyError?
  {
  }

  // ----- transform_tests -----

  /** The categories `transform_tests` collects, in the order it visits them. */
  const TestCategories: seq<string> := ["headerTest", "sizeTest"]

  /** The tag written into the entries of a category: its key without `Test`. */
  function TagOf(key: string): string
    requires |key| >= 4
  {
    key[..|key| - 4]
  }

  /** The dicts a category contributes: a single dict counts as a one-element
      list. */
  function Members(f: Field<Dict>): seq<Dict>
  {
    match f
    case Text(_) => []
    case One(d) => [d]
    case Many(ds) => ds
  }

  function Category(tests: map<string, Field<Dict>>, key: string): seq<Dict>
  {
    if key in tests then Members(tests[key]) else []
  }

  predicate HoldsString(tests: map<string, Field<Dict>>, key: string)
  {
    key in tests && tests[key].Text?
  }

  /** The list `new_tests` after the first `n` categories. */
  function CollectedUpTo(tests: map<string, Field<Dict>>, n: nat): seq<Dict>
    requires n <= |TestCategories|
  {
    if n == 0 then [] else CollectedUpTo(tests, n - 1) + Category(tests, TestCategories[n - 1])
  }

  function Collected(tests: map<string, Field<Dict>>): seq<Dict>
  {
    CollectedUpTo(tests, |TestCategories|)
  }

  /** The dicts `transform_tests` may write to. */
  function TestObjects(tests: map<string, Field<Dict>>): set<Dict>
  {
    set d | d in Collected(tests)
  }

  function FirstStringFrom(tests: map<string, Field<Dict>>, i: nat): (n: nat)
    requires i <= |TestCategories|
    ensures i <= n <= |TestCategories|
    decreases |TestCategories| - i
  {
    if i == |TestCategories| || HoldsString(tests, TestCategories[i]) then i
    else FirstStringFrom(tests, i + 1)
  }

  /** How many categories `transform_tests` processes before it stops: it
      raises on the first category that holds a bare string. */
  function Processed(tests: map<string, Field<Dict>>): nat
  {
    FirstStringFrom(tests, 0)
  }

  /** The `test` value a dict holds after the first `n` categories: the tag of
      the last of them that lists it, if any. */
  ghost function LastTag(tests: map<string, Field<Dict>>, n: nat, d: Dict): Option<string>
    requires n <= |TestCategories|
  {
    if n == 0 then None
    else if d in Category(tests, TestCategories[n - 1]) then Some(TagOf(TestCategories[n - 1]))
    else LastTag(tests, n - 1, d)
  }

  function Retagged(m: Entry, tag: Option<string>): Entry
  {
    match tag
    case None => m
    case Some(t) => m["test" := t]
  }

  /** A second tag replaces the first. */
  lemma RetagAgain(m: Entry, first: Option<string>, tag: string)
    ensures Retagged(m, first)["test" := tag] == m["test" := tag]
  {
  }

  /** The dicts of the first `n` categories got their `test` field; no other
      field of any dict changed. */
  twostate predicate Retags(tests: map<string, Field<Dict>>, n: nat)
    requires n <= |TestCategories|
    reads TestObjects(tests)
  {
    forall d :: d in TestObjects(tests) && old(allocated(d)) ==> d.fields == Retagged(old(d.fields), LastTag(tests, n, d))
  }

  function FieldsOf(ds: seq<Dict>): (es: seq<Entry>)
    reads set d | d in ds
    ensures |es| == |ds|
  {
    if |ds| == 0 then [] else [ds[0].fields] + FieldsOf(ds[1..])
  }

  /** What `transform_tests` returns, given the dicts' current contents: one
      indented line per gathered test, or the TypeError of a category that
      holds a bare string. */
  function TestLines(tests: map<string, Field<Dict>>): (r: Result<seq<string>>)
    reads TestObjects(tests)
    ensures Processed(tests) < |TestCategories| ==> r.Err? && r.error.TypeError?
    ensures r.Ok? ==> |r.value| == |Collected(tests)|
    ensures r.Ok? ==> forall i :: 0 <= i < |r.value| ==> |r.value[i]| >= 3 && r.value[i][..3] == Indent
  {
    if Processed(tests) < |TestCategories| then Err(TypeError(ItemAssignment))
    else
      var sorted := SortBy(FieldsOf(Collected(tests)), IndexKey);
      MapAllOk(sorted, ShowTest);
      MapAll(sorted, ShowTest)
  }

  lemma CategoryCollected(tests: map<string, Field<Dict>>, i: nat, d: Dict)
    requires i < |TestCategories|
    requires d in Category(tests, TestCategories[i])
    ensures d in TestObjects(tests)
  {
    assert CollectedUpTo(tests, 1) == [] + Category(tests, TestCategories[0]);
    assert Collected(tests) == CollectedUpTo(tests, 1) + Category(tests, TestCategories[1]);
  }

  /** `tt['test'] = tag` for every dict of one category, in list order. */
  method TagEach(ts: seq<Dict>, tag: string)
    modifies set d | d in ts
    ensures forall d :: d in ts ==> d.fields == old(d.fields)["test" := tag]
  {
    for j := 0 to |ts|
      invariant forall d :: d in ts ==> d.fields == if d in ts[..j] then old(d.fields)["test" := tag] else old(d.fields)
    {
      ts[j].fields := ts[j].fields["test" := tag];
    }
    assert ts[..|ts|] == ts;
  }

  /** `transform_tests`: tags every header and size dict with its kind, then
      returns their lines in `index` order. */
  method TransformTests(tests: map<string, Field<Dict>>) returns (r: Result<seq<string>>)
    modifies TestObjects(tests)
    ensures Retags(tests, Processed(tests))
    ensures Processed(tests) == |TestCategories| ==>
      forall d :: d in TestObjects(tests) && old(allocated(d)) ==> Get(d.fields, "test") in {Some("header"), Some("size")}
    ensures r == TestLines(tests)
  {
    var newTests: seq<Dict> := [];
    for i := 0 to |TestCategories|
      invariant newTests == CollectedUpTo(tests, i)
      invariant Processed(tests) == FirstStringFrom(tests, i)
      invariant Retags(tests, i)
    {
      var key := TestCategories[i];
      if key in tests {
        var t := tests[key];
        if t.Text? {
          return Err(TypeError(ItemAssignment));
        }
        var ts := Members(t);
        var tag := key[..|key| - 4];
        forall d | d in ts
          ensures d in TestObjects(tests)
        {
          CategoryCollected(tests, i, d);
        }
        TagEach(ts, tag);
        forall d | d in TestObjects(tests) && old(allocated(d))
          ensures d.fields == Retagged(old(d.fields), LastTag(tests, i + 1, d))
        {
          if d in ts {
            RetagAgain(old(d.fields), LastTag(tests, i, d), tag);
          }
        }
        newTests := newTests + ts;
      }
    }
    forall d | d in TestObjects(tests) && old(allocated(d)) {
      CollectedTagged(tests, d);
    }
    var sorted := SortBy(FieldsOf(newTests), IndexKey);
    r := MapAll(sorted, ShowTest);
  }

  /** The dicts gathered are those under `headerTest`, then those under
      `sizeTest`; a single dict counts as a one-element list. */
  lemma CollectedCategories(tests: map<string, Field<Dict>>)
    ensures Collected(tests) == Category(tests, "headerTest") + Category(tests, "sizeTest")
    ensures |Collected(tests)| == |Category(tests, "headerTest")| + |Category(tests, "sizeTest")|
  {
    assert CollectedUpTo(tests, 1) == [] + Category(tests, TestCategories[0]);
  }

  /** Every key other than `headerTest` and `sizeTest` (`condition`, `bodyTest`,
      `dateTest`, `headerExistsTest`, ...) contributes nothing and cannot make
      the call fail. */
  lemma OtherKeysIgnored(tests: map<string, Field<Dict>>, k: string, v: Field<Dict>)
    requires k !in TestCategories
    ensures Collected(tests[k := v]) == Collected(tests)
    ensures Processed(tests[k := v]) == Processed(tests)
  {
    CollectedCategories(tests);
    CollectedCategories(tests[k := v]);
    assert Category(tests[k := v], "headerTest") == Category(tests, "headerTest");
    assert Category(tests[k := v], "sizeTest") == Category(tests, "sizeTest");
    assert HoldsString(tests[k := v], "headerTest") == HoldsString(tests, "headerTest");
    assert HoldsString(tests[k := v], "sizeTest") == HoldsString(tests, "sizeTest");
  }

  /** Every gathered dict is reachable from the argument, so it exists. */
  lemma TestObjectsAllocated(tests: map<string, Field<Dict>>)
    ensures forall d :: d in TestObjects(tests) ==> allocated(d)
  {
    CollectedCategories(tests);
    forall d | d in TestObjects(tests)
      ensures allocated(d)
    {
      var key := if d in Category(tests, "headerTest") then "headerTest" else "sizeTest";
      assert allocated(tests[key]);
    }
  }

  /** After all categories, every gathered dict is tagged `header` or `size`. */
  lemma CollectedTagged(tests: map<string, Field<Dict>>, d: Dict)
    requires d in TestObjects(tests)
    ensures LastTag(tests, |TestCategories|, d) in {Some("header"), Some("size")}
  {
    CollectedCategories(tests);
    assert "headerTest"[..6] == "header";
    assert "sizeTest"[..4] == "size";
  }

  /** The sorted entries are the gathered ones rearranged, in non-decreasing
      `index` order compared as text; entries with equal indices keep their
      gathered order (header before size, then list order). When rendering
      succeeds there is one line per entry, the i-th rendering the i-th
      sorted entry. */
  lemma RenderedInIndexOrder(es: seq<Entry>)
    ensures var sorted := SortBy(es, IndexKey);
      && |sorted| == |es|
      && SortedBy(sorted, IndexKey)
      && multiset(sorted) == multiset(es)
      && (forall k :: Filter(sorted, IndexKey, k) == Filter(es, IndexKey, k))
      && (MapAll(sorted, ShowTest).Ok? ==>
            |MapAll(sorted, ShowTest).value| == |es| &&
            forall i :: 0 <= i < |es| ==> Ok(MapAll(sorted, ShowTest).value[i]) == ShowTest(sorted[i]))
  {
    var sorted := SortBy(es, IndexKey);
    SortBySorted(es, IndexKey);
    SortByPermutes(es, IndexKey);
    forall k
      ensures Filter(sorted, IndexKey, k) == Filter(es, IndexKey, k)
    {
      SortByStable(es, IndexKey, k);
    }
    MapAllOk(sorted, ShowTest);
    assert |multiset(sorted)| == |multiset(es)|;
  }

  predicate AllTagged(es: seq<Entry>)
  {
    forall x :: x in es ==> Get(x, "test") in {Some("header"), Some("size")}
  }

  lemma TaggedListRenders(xs: seq<Entry>)
    requires AllTagged(xs)
    ensures MapAll(xs, ShowTest).Ok? <==> forall x :: x in xs ==> HasOperands(x)
    ensures MapAll(xs, ShowTest).Err? ==> MapAll(xs, ShowTest).error.KeyError?
  {
    MapAllOk(xs, ShowTest);
    if MapAll(xs, ShowTest).Err? {
      MapAllFirstError(xs, ShowTest);
      var i :| 0 <= i < |xs| && ShowTest(xs[i]) == Err(MapAll(xs, ShowTest).error);
      TaggedNeverUnknown(xs[i]);
    } else {
      forall x | x in xs
        ensures HasOperands(x)
      {
        var i :| 0 <= i < |xs| && xs[i] == x;
        TaggedNeverUnknown(xs[i]);
      }
    }
  }

  /** Rendering the sorted entries, all tagged `header` or `size`, succeeds
      exactly when each carries its operands; otherwise it raises a KeyError,
      never the TypeError of the unknown-kind fallback. */
  lemma TaggedEntriesRender(es: seq<Entry>)
    requires AllTagged(es)
    ensures var lines := MapAll(SortBy(es, IndexKey), ShowTest);
      && (lines.Ok? <==> forall x :: x in es ==> HasOperands(x))
      && (lines.Err? ==> lines.error.KeyError?)
  {
    var sorted := SortBy(es, IndexKey);
    SortByPermutes(es, IndexKey);
    assert forall x :: x in sorted <==> x in es by {
      forall x ensures x in sorted <==> x in es {
        assert x in sorted <==> x in multiset(sorted);
        assert x in es <==> x in multiset(es);
      }
    }
    TaggedListRenders(sorted);
  }

  lemma {:induction false} FieldsOfElements(ds: seq<Dict>)
    ensures forall i :: 0 <= i < |ds| ==> FieldsOf(ds)[i] == ds[i].fields
  {
    if |ds| > 0 {
      FieldsOfElements(ds[1..]);
    }
  }

  /** Once every gathered dict is tagged, as `transform_tests` leaves them
      when it gets through both categories, its result succeeds exactly when
      every gathered dict carries the operands of its kind, and it fails only
      with a KeyError. */
  lemma TestLinesOutcome(tests: map<string, Field<Dict>>)
    requires Processed(tests) == |TestCategories|
    requires forall d :: d in TestObjects(tests) ==> Get(d.fields, "test") in {Some("header"), Some("size")}
    ensures TestLines(tests).Ok? <==> forall d :: d in TestObjects(tests) ==> HasOperands(d.fields)
    ensures TestLines(tests).Err? ==> TestLines(tests).error.KeyError?
  {
    var ds := Collected(tests);
    var es := FieldsOf(ds);
    FieldsOfElements(ds);
    assert AllTagged(es) by {
      forall x | x in es
        ensures Get(x, "test") in {Some("header"), Some("size")}
      {
        var i :| 0 <= i < |es| && es[i] == x;
        assert ds[i] in TestObjects(tests);
      }
    }
    TaggedEntriesRender(es);
    if forall x :: x in es ==> HasOperands(x) {
      forall d | d in TestObjects(tests)
        ensures HasOperands(d.fields)
      {
        var i :| 0 <= i < |ds| && ds[i] == d;
        assert es[i] in es;
      }
    } else {
      var x :| x in es && !HasOperands(x);
      var i :| 0 <= i < |es| && es[i] == x;
      assert ds[i] in TestObjects(tests);
    }
  }

  // ----- display_test -----

  const ConditionKey := "condition"

  /** The categories `display_test` gets through: none when it fails on the
      condition, which it reads before transforming the tests. */
  function Reached(tests: map<string, Field<Dict>>): (n: nat)
    ensures n <= |TestCategories|
  {
    if ConditionKey in tests && tests[ConditionKey].Text? then Processed(tests) else 0
  }

  /** What `display_test` prints: the combinator, ` (`, the test lines joined
      by `,` and a newline, and `)` on a line of its own, whose line
      `display_rule` finishes. The condition is read first, so a missing or
      non-string condition raises before any test is looked at. */
  function TestText(tests: map<string, Field<Dict>>): (r: Result<string>)
    reads TestObjects(tests)
    ensures r.Ok? <==> ConditionKey in tests && tests[ConditionKey].Text? && TestLines(tests).Ok?
    ensures ConditionKey !in tests ==> r == Err(KeyError(ConditionKey))
    ensures ConditionKey in tests && !tests[ConditionKey].Text? ==> r.Err? && r.error.TypeError?
  {
    if ConditionKey !in tests then Err(KeyError(ConditionKey))
    else if !tests[ConditionKey].Text? then Err(TypeError(ConditionNotString))
    else
      match TestLines(tests)
      case Err(e) => Err(e)
      case Ok(lines) => Ok(tests[ConditionKey].s + " (\n" + Join(lines, ",\n") + "\n)")
  }

  /** The test block `display_test` prints: `<condition> (` and a newline, then
      the sorted test lines in order, separated by `,` and a newline, and a
      newline and `)` at the end. */
  lemma TestTextLayout(tests: map<string, Field<Dict>>)
    requires TestText(tests).Ok?
    ensures LaidOut(TestText(tests).value, tests[ConditionKey].s + " (\n", TestLines(tests).value, ",\n", "\n)")
  {
    var open := tests[ConditionKey].s + " (\n";
    var lines := TestLines(tests).value;
    assert TestText(tests).value == open + Join(lines, ",\n") + "\n)";
    BlockLayout(open, lines, ",\n", "\n)");
  }

  /** `display_test`. */
  method DisplayTest(tests: map<string, Field<Dict>>) returns (r: Result<string>)
    modifies TestObjects(tests)
    ensures Retags(tests, Reached(tests))
    ensures r == TestText(tests)
  {
    if ConditionKey !in tests {
      return Err(KeyError(ConditionKey));
    }
    var condition := tests[ConditionKey];
    if !condition.Text? {
      return Err(TypeError(ConditionNotString));
    }
    var lines := TransformTests(tests);
    if lines.Err? {
      return Err(lines.error);
    }
    r := Ok(condition.s + " (\n" + Join(lines.value, ",\n") + "\n)");
  }
}
