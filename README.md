# zimbratosthenes: the record-to-script serializer

`zimbra.py` reads a mail server's filter rules as records and prints each one
as a Sieve-like filtering script. A rule record has these fields:

- a `name`;
- an `active` flag;
- `filterTests`, a `condition` (`allof`/`anyof`) plus test categories such
  as `headerTest` or `sizeTest`;
- `filterActions`, action categories such as `actionKeep` or `actionTag`.

A category holds one dict, or a list of dicts when it has several entries.
Every leaf dict carries an `index` string that fixes its place in the
output.

This project models the serializer:

- `display_rule` prints `# <name>`, `# inactive` when `active` is "0", and
  `if <condition> ( <tests> ) { <actions> }`.
- `display_test` and `transform_tests` collect the header and size tests.
  They write the kind of each test (`header` or `size`) into its dict as a
  `test` field, sort the tests by `index`, and render each with `show_test`.
- `display_actions` and `display_action` sort the actions by `index` and
  render each as one command.

Modules:

- `Outcome` holds `Option`, the exceptions the code can raise (`KeyError`,
  `TypeError`, `AttributeError`) as a `Result`, and Python's `map` over a
  function that may raise (`MapAll`).
- `PyString` holds Python 2 unicode ordering (`LexLe`), `str.split` and
  `str.join`.
- `PySort` holds `list.sort` with the key `x.get('index')`. It is a stable
  sort in which `None` precedes every string and strings compare as text.
  `SortBy` is proved sorted, a permutation and stable. Any list with those
  three properties is proved equal to it (`StableSortIsSortBy`), so it
  stands for CPython's sort without loss.
- `Records` holds the record shapes. Test dicts are objects (`Dict`),
  because `transform_tests` writes into the caller's dicts.
- `ZimbraTests`, `ZimbraActions` and `ZimbraRule` hold the serializer.
- `Scenario` holds the rule of `test_zimbra.py`: its actions as printed, and what this version makes of its tests.

What the code prints is modelled as the text it returns. The interplay of
Python 2's `print` and its trailing commas is worked out in that text:

- `print 'if',` leaves a pending space, so the condition is printed as
  `if <condition> (`.
- `print ')',` leaves one too, so the closing line is `) {`.
- `print '  ',` leaves one before every action, which gives each action
  line three spaces of indentation.

An exception is an `Err` result.

Some behaviour of the code is easy to miss. The model keeps it as written:

- Indices are compared as text, so "10" sorts before "2" (zimbra.py:39, 65).
- An unknown test or action kind raises a `TypeError`. The placeholder the
  code tries to print joins a `str` with a dict or a tuple (`str + dict`,
  `str + tuple`, zimbra.py:55, 95).
- Sizes are printed exactly as stored (zimbra.py:48).
- Only `headerTest` and `sizeTest` are collected (zimbra.py:30). Date, body
  and header-existence tests are not rendered at all.
- The flag action prints `flag "<flagName>"` verbatim (zimbra.py:89).

## Model

| member | source | states |
|---|---|---|
| `ZimbraTests.ShowTest` | zimbra.py:43-60 | A rendered test line starts with three spaces and carries `not ` right after them exactly when `negative` is "1". |
| `ZimbraTests.TestTemplate` | zimbra.py:47-59 | The template part of the line starts with `size`, `head` or `addr`, the three kinds `show_test` renders. |
| `ZimbraTests.ShowTestOutcome` | zimbra.py:43-60 | `show_test` succeeds exactly on an entry of a known kind (size, header, address) that carries that kind's operands. It raises a TypeError exactly on an unknown kind and a KeyError otherwise. |
| `ZimbraTests.SizeLine` | zimbra.py:47-49 | A size test renders as `size :<numberComparison> <s>`, with the size copied verbatim. |
| `ZimbraTests.HeaderLine` | zimbra.py:50-59 | A header test renders as `header :<op>`, then the case-map comparator exactly when `caseSensitive` is "1", the quoted header names in brackets and the quoted value. The names are the comma-free pieces of `header`, and joining them with commas gives the field back. |
| `PyString.Split` | zimbra.py:58 | `str.split(',')` yields one more piece than there are commas. No piece contains a comma, and joining the pieces with the separator restores the string. |
| `PyString.SplitNoSeparator` | zimbra.py:58 | A header field without a comma splits into itself alone. |
| `PyString.SplitFirst` | zimbra.py:58 | The text before the first comma is the first name; the rest of the field splits on its own. |
| `ZimbraTests.TaggedNeverUnknown` | zimbra.py:47-55 | An entry tagged `header` or `size` never reaches the unknown-kind fallback. It fails only with a KeyError for a missing operand. |
| `ZimbraTests.TransformTests` | zimbra.py:28-40 | The dicts of the categories processed get exactly `test := <kind>`; the last category that lists a dict decides its tag, and no other field changes. When both categories are processed, every gathered dict is tagged `header` or `size`. The result is the sorted, rendered list, or the TypeError of a category holding a bare string. |
| `ZimbraTests.TagEach` | zimbra.py:36-37 | Every dict of a category gets `test := <kind>`, with its other fields kept and no other dict touched. |
| `ZimbraTests.CollectedCategories` | zimbra.py:30-38 | The gathered dicts are those of `headerTest` followed by those of `sizeTest`. A single dict counts as a one-element list. |
| `ZimbraTests.OtherKeysIgnored` | zimbra.py:30-31 | No key other than `headerTest` and `sizeTest` changes what is gathered, and none makes the call fail. |
| `ZimbraTests.CollectedTagged` | zimbra.py:36-37 | Every gathered dict ends up with the tag `header` or `size`. |
| `ZimbraTests.RenderedInIndexOrder` | zimbra.py:39-40 | The rendered tests are the gathered ones rearranged into non-decreasing `index` order, compared as text. Equal indices keep their gathered order. The i-th line renders the i-th sorted entry. |
| `ZimbraTests.TaggedEntriesRender` | zimbra.py:39-40 | Rendering the sorted, tagged entries succeeds exactly when each carries its operands, and otherwise raises a KeyError. |
| `ZimbraTests.TestLinesOutcome` | zimbra.py:28-40 | Once both categories are tagged, `transform_tests` succeeds exactly when every gathered dict has its operands, and otherwise fails with a KeyError. |
| `ZimbraTests.TestLines` | zimbra.py:39-40 | `transform_tests` returns one line per gathered test dict, each starting with three spaces. A category that holds a bare string makes it raise a TypeError. |
| `ZimbraTests.TestText` | zimbra.py:23-25 | The test block renders exactly when `condition` is present and a string and the tests render. A missing condition raises a KeyError and a non-string one a TypeError, before any test is looked at. |
| `ZimbraTests.TestTextLayout` | zimbra.py:23-25 | The test block is exactly `<condition> (` and a newline, then every test line at its place in sorted order, each after a `,` and a newline except the first, then a newline and `)`, with nothing else in between. |
| `ZimbraTests.DisplayTest` | zimbra.py:22-25 | `display_test` reads `condition` first: a KeyError if it is missing, a TypeError if it is not a string. It then prints `<condition> (`, the test lines joined by a comma and a newline, and `)`. |
| `ZimbraActions.DisplayAction` | zimbra.py:71-95 | `display_action` renders exactly the renderable actions: a known key whose dict has the field it quotes. The command ends with `;`. An unknown key raises a TypeError, and a known key without its field raises the KeyError of that field. |
| `ZimbraActions.DisplayActionFollowsTable` | zimbra.py:71-95 | `display_action` is the seven-entry action table: each known key renders its command with its quoted operand, if it has one. It succeeds exactly on a known key whose dict has that operand, and any other key raises a TypeError. |
| `ZimbraActions.AsDicts` | zimbra.py:64-65 | Computing the sort keys succeeds exactly when every action category holds a single dict. It then gives one (key, dict) pair per category, in the dict's iteration order. |
| `ZimbraActions.ActionLine` | zimbra.py:67-68 | One action line renders exactly when the action is renderable. It is three spaces, then a command ending with `;`. |
| `ZimbraActions.ActionLines` | zimbra.py:64-68 | `display_actions` gives one line per action, each starting with three spaces. A category that is not a single dict raises an AttributeError before any action is rendered. |
| `ZimbraActions.DisplayActions` | zimbra.py:63-68 | The loop prints, in sorted order, one line per action, three spaces then the command. It stops at the first action it cannot render. |
| `ZimbraActions.ActionLinesOutcome` | zimbra.py:63-68 | `display_actions` succeeds exactly when every category holds a single dict and every action is a known one with its operand. |
| `ZimbraActions.ActionLinesInIndexOrder` | zimbra.py:64-68 | The printed actions are the record's actions in non-decreasing `index` order, with ties in the dict's order. Line i is three spaces and the command of the i-th sorted action. |
| `ZimbraActions.ActionOrderIrrelevant` | zimbra.py:64-65 | When every action has its own `index`, the dict's iteration order does not change the output. |
| `ZimbraRule.RuleText` | zimbra.py:12-19 | The text of a rule starts with `# ` and ends with `}` and a newline. |
| `ZimbraRule.RuleOutput` | zimbra.py:12-19 | `display_rule` returns the text exactly when both the test block and the actions render. An exception of the test block comes first; otherwise the exception of the actions is returned. |
| `ZimbraRule.DisplayRule` | zimbra.py:11-19 | `display_rule` tags the test dicts as `display_test` does. It returns the rule's text, or the first exception raised by the tests and then the actions. |
| `ZimbraRule.RuleTextHead` | zimbra.py:12-15 | The text opens with `# <name>`. `# inactive` follows exactly when `active` is "0", then the `if` line. |
| `ZimbraRule.RuleTextTestBlock` | zimbra.py:15-17 | The test block follows `if ` directly, and ` {` and a newline follow it. The space is the one `print ')',` (zimbra.py:25) leaves pending. |
| `ZimbraRule.RuleTextTail` | zimbra.py:17-19 | The text closes with the action lines, each ended by a newline, and then `}`. |
| `PyString.Unlines` | zimbra.py:67-68 | The newline each `print` adds: the text of at least one line ends with a newline, and lines without newlines of their own yield exactly one newline each. |
| `PyString.UnlinesIsJoin` | zimbra.py:67-68 | The printed action lines are the lines joined by newlines, with a final newline after the last. |
| `ZimbraRule.RuleTextActionLayout` | zimbra.py:17-19 | After the `{` line, every action line sits in order on a line of its own, and `}` and a newline close the text, with nothing else in between. |
| `PySort.SortBy` | zimbra.py:39 | `list.sort` with the `index` key (here and at zimbra.py:65) keeps the length of the list. Order, permutation and stability are the lemmas below. |
| `PySort.KeyLe` | zimbra.py:39 | `<=` on the keys `x.get('index')` (also at zimbra.py:65): `None` comes before every string, and two strings compare as text. |
| `PySort.SortBySorted` | zimbra.py:39 | The sorted list is in non-decreasing key order, with `None` first and strings compared as text. |
| `PySort.SortByPermutes` | zimbra.py:39 | Sorting keeps the same elements, each as often. |
| `PySort.SortByStable` | zimbra.py:39 | Sorting is stable: the elements that share a key keep their order. |
| `PySort.StableSortIsSortBy` | zimbra.py:65 | Any sorted, stable rearrangement of the list is `SortBy`'s result. |
| `PySort.SortIgnoresOrder` | zimbra.py:64-65 | With distinct keys, any two arrangements of the same elements sort to the same list. |
| `PyString.Join` | zimbra.py:24 | `sep.join(parts)` (here and at zimbra.py:58) is as long as the parts together plus one separator between each two neighbours. |
| `PyString.JoinPlacesParts` | zimbra.py:24 | Every part appears in the joined text at its offset, in order, and a separator sits right before each part but the first. |
| `PyString.BlockLayout` | zimbra.py:23-25 | Parts joined between an opening and a closing text: the opening, each part at its offset in order with a separator before every part but the first, and the closing right after the last part. The length leaves room for nothing else. |
| `PyString.LexLe` | zimbra.py:39 | Python 2 `<=` on unicode strings, the order of the index keys (also at zimbra.py:65): a prefix comes first, and a string whose first code point is larger never does. |
| `PyString.LexLeFirstDifference` | zimbra.py:39 | `a <= b` holds exactly when `a` is a prefix of `b` or, at the first position where they differ, `a` has the smaller code point. |
| `PyString.LexLeTotal` | zimbra.py:39 | Text comparison of index strings is total, so any two indices are ordered. |
| `PyString.LexLeTransitive` | zimbra.py:39 | Text comparison of index strings is transitive. |
| `PyString.LexLeAntisymmetric` | zimbra.py:39 | Two indices that compare both ways are equal. |
| `Outcome.MapAll` | zimbra.py:40 | The builtin `map` over a function that may raise. When it succeeds it gives one result per element, the last from the last element. |
| `Outcome.MapAllEach` | zimbra.py:40 | When the function gives the i-th value for every i-th element, `map` returns exactly those values. |
| `Outcome.MapAllOk` | zimbra.py:40 | `map(show_test, ...)` succeeds exactly when every element renders. It then returns one line per element, in order. |
| `Outcome.MapAllFirstError` | zimbra.py:40 | When `map` raises, it raises the exception of the first element that fails. |
| `Scenario.DummyActionsRender` | test_zimbra.py:34-40 | The seven actions of the test rule print as `keep;`, `tag "Old";`, `flag "read";`, `fileinto ".pipe";`, `redirect "example@example.com";`, `discard;`, `stop;`, in that order. |
| `Scenario.IndexComparedAsText` | zimbra.py:65 | An action at index "10" is printed before one at index "2". |
| `Scenario.SizePrintedAsStored` | zimbra.py:47-49 | The size test of the test rule (test_zimbra.py:28-29) prints as `size :over 10M`, with the size as stored. |
| `Scenario.DummyTestsGathered` | zimbra.py:30-38 | Of the test rule's six test keys (test_zimbra.py:15-32), only the header tests and then the size test are gathered, and both categories are processed. Its date, body and header-existence tests do not reach the output. |

## Left out

- `main` and everything that talks to the mail server: login, `getpass`, the SOAP request and the response parsing. They are I/O and not part of the serializer.
- Output that is already printed when an exception is raised. An exception is modelled as an `Err` result without the partial text.
- Top-level fields of the rule: `name`, `active`, `filterTests` and `filterActions` are assumed present, `name` and `active` are strings, and `filterTests` and `filterActions` are dicts. A `filterTests` that is a list or a string would raise a TypeError at `test['condition']` (zimbra.py:23). A `filterActions` that is not a dict would raise an AttributeError at `.items()` (zimbra.py:64). When a field is missing, the KeyError comes at a different point for each. For `name` it comes before anything is printed (zimbra.py:12). For `active` it comes after `# <name>` (zimbra.py:13). For `filterTests` it comes after `if` (zimbra.py:15-16). For `filterActions` it comes after the test block is printed and its dicts are tagged (zimbra.py:16-18).
- Leaf values other than strings, and lists holding anything other than dicts. A leaf dict maps strings to strings. A category holds a string, a dict or a list of dicts.
- The action dict's iteration order, which Python 2 derives from string hashes, is a parameter: `filterActions` is the sequence of its pairs in that order. `ActionOrderIrrelevant` shows that the order does not matter when the indices are distinct.
- String comparison is by code point, as Python 2 compares unicode strings. Byte strings and mixed byte/unicode comparison are not modelled.
- `ZimbraTests.TransformTests`: the statement that other fields stay as they were covers only dicts that existed before the call, which every dict of the record does.
- `ZimbraRule.DisplayRule`: does not state that the name and `# inactive` lines are printed before a failing test block raises; only the returned text or exception is modelled.
- `setup.py` is not part of this model.
- `test_zimbra.py` calls `display_rules`, `init_parser` and `zimbrify` (test_zimbra.py:71, 75, 82). This `zimbra.py` defines none of them, and the expected script in that file (`addflag`, for instance) is the output of a later version. Its action record and its test record are used in `Scenario`; its expected script is not.
