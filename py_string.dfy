/** The Python 2 string operations the serializer uses: the ordering of
    unicode strings (the sort keys are strings), `str.split` with an explicit
    one-character separator and `str.join`. */
module PyString {

  /** Python 2 `a <= b` on unicode strings: lexicographic on code points, a
      proper prefix coming first. */
  predicate LexLe(a: string, b: string)
    ensures a <= b ==> LexLe(a, b)
    ensures LexLe(a, b) && |a| > 0 && |b| > 0 ==> a[0] <= b[0]
  {
    |a| == 0 || (|b| > 0 && (a[0] < b[0] || (a[0] == b[0] && LexLe(a[1..], b[1..]))))
  }

  /** `a` and `b` agree before position `i`, where `a` has the smaller code
      point. */
  predicate DiffersLowerAt(a: string, b: string, i: nat)
  {
    i < |a| && i < |b| && a[..i] == b[..i] && a[i] < b[i]
  }

  /** `LexLe` is the order Python 2 uses: `a` is a prefix of `b`, or at the
      first position where they differ `a` has the smaller code point. */
  lemma {:induction false} LexLeFirstDifference(a: string, b: string)
    ensures LexLe(a, b) <==> a <= b || exists i: nat :: DiffersLowerAt(a, b, i)
  {
    if |a| > 0 && |b| > 0 {
      var a', b' := a[1..], b[1..];
      LexLeFirstDifference(a', b');
      if a[0] < b[0] {
        assert DiffersLowerAt(a, b, 0);
      } else if a[0] > b[0] {
        assert forall i: nat :: DiffersLowerAt(a, b, i) ==> a[..i] == b[..i] && (i == 0 || a[..i][0] == a[0]);
      } else {
        assert a == [a[0]] + a' && b == [b[0]] + b';
        if exists i: nat :: DiffersLowerAt(a', b', i) {
          var i: nat :| DiffersLowerAt(a', b', i);
          assert a[..i + 1] == [a[0]] + a'[..i] && b[..i + 1] == [b[0]] + b'[..i];
          assert DiffersLowerAt(a, b, i + 1);
        }
        if exists i: nat :: DiffersLowerAt(a, b, i) {
          var i: nat :| DiffersLowerAt(a, b, i);
          assert i > 0;
          assert a'[..i - 1] == a[..i][1..] && b'[..i - 1] == b[..i][1..];
          assert DiffersLowerAt(a', b', i - 1);
        }
        assert a <= b <==> a' <= b' by {
          if a' <= b' {
            assert b[..|a|] == [b[0]] + b'[..|a'|];
          }
          if a <= b {
            assert b'[..|a'|] == b[..|a|][1..];
          }
        }
      }
    }
  }

  lemma {:induction false} LexLeReflexive(a: string)
    ensures LexLe(a, a)
  {
    if |a| > 0 {
      LexLeReflexive(a[1..]);
    }
  }

  lemma {:induction false} LexLeTotal(a: string, b: string)
    ensures LexLe(a, b) || LexLe(b, a)
  {
    if |a| > 0 && |b| > 0 && a[0] == b[0] {
      LexLeTotal(a[1..], b[1..]);
    }
  }

  lemma {:induction false} LexLeTransitive(a: string, b: string, c: string)
    requires LexLe(a, b) && LexLe(b, c)
    ensures LexLe(a, c)
  {
    if |a| > 0 && a[0] == b[0] && b[0] == c[0] {
      LexLeTransitive(a[1..], b[1..], c[1..]);
    }
  }

  lemma {:induction false} LexLeAntisymmetric(a: string, b: string)
    requires LexLe(a, b) && LexLe(b, a)
    ensures a == b
  {
    if |a| > 0 {
      LexLeAntisymmetric(a[1..], b[1..]);
      assert a == [a[0]] + a[1..];
      assert b == [b[0]] + b[1..];
    }
  }

  /** Where part `n` starts in `Join(parts, sep)`: every earlier part is
      followed by one separator. */
  function Offset(parts: seq<string>, sep: string, n: nat): nat
    requires n <= |parts|
  {
    if n == 0 then 0 else |parts[0]| + |sep| + Offset(parts[1..], sep, n - 1)
  }

  /** Python `sep.join(parts)`: the parts in order, a separator between any
      two neighbours and none at either end. */
  function Join(parts: seq<string>, sep: string): (r: string)
    ensures |r| == if |parts| == 0 then 0 else Offset(parts, sep, |parts|) - |sep|
  {
    if |parts| == 0 then ""
    else if |parts| == 1 then parts[0]
    else parts[0] + sep + Join(parts[1..], sep)
  }

  /** Part `i` sits at its offset in the joined text. */
  lemma {:induction false} JoinPlacesPart(parts: seq<string>, sep: string, i: nat)
    requires i < |parts|
    ensures Offset(parts, sep, i) + |parts[i]| <= |Join(parts, sep)|
    ensures Join(parts, sep)[Offset(parts, sep, i)..Offset(parts, sep, i) + |parts[i]|] == parts[i]
    decreases i
  {
    var j := Join(parts, sep);
    if |parts| > 1 {
      var rest := parts[1..];
      var head := parts[0] + sep;
      assert j == head + Join(rest, sep);
      if i == 0 {
        assert j[..|parts[0]|] == parts[0];
      } else {
        JoinPlacesPart(rest, sep, i - 1);
        OffsetShift(parts, sep, i);
        SliceAfter(head, Join(rest, sep), Offset(rest, sep, i - 1), Offset(rest, sep, i - 1) + |parts[i]|);
      }
    }
  }

  /** The separator comes right before part `i`, for every part but the first. */
  lemma {:induction false} JoinSeparatesPart(parts: seq<string>, sep: string, i: nat)
    requires 0 < i < |parts|
    ensures |sep| <= Offset(parts, sep, i) <= |Join(parts, sep)|
    ensures Join(parts, sep)[Offset(parts, sep, i) - |sep|..Offset(parts, sep, i)] == sep
    decreases i
  {
    var j := Join(parts, sep);
    var rest := parts[1..];
    var head := parts[0] + sep;
    assert j == head + Join(rest, sep);
    JoinPlacesPart(parts, sep, i);
    if i == 1 {
      assert j[|parts[0]|..|head|] == sep;
    } else {
      JoinSeparatesPart(rest, sep, i - 1);
      OffsetShift(parts, sep, i);
      var o := Offset(rest, sep, i - 1);
      SliceAfter(head, Join(rest, sep), o - |sep|, o);
    }
  }

  /** Every part sits at its offset in the joined text, so the parts appear
      in order, each preceded by a separator except the first. */
  lemma {:induction false} JoinPlacesParts(parts: seq<string>, sep: string)
    ensures forall i :: 0 <= i < |parts| ==>
      Offset(parts, sep, i) + |parts[i]| <= |Join(parts, sep)| &&
      Join(parts, sep)[Offset(parts, sep, i)..Offset(parts, sep, i) + |parts[i]|] == parts[i]
    ensures forall i :: 0 < i < |parts| ==>
      |sep| <= Offset(parts, sep, i) <= |Join(parts, sep)| &&
      Join(parts, sep)[Offset(parts, sep, i) - |sep|..Offset(parts, sep, i)] == sep
  {
    forall i | 0 <= i < |parts|
      ensures Offset(parts, sep, i) + |parts[i]| <= |Join(parts, sep)|
      ensures Join(parts, sep)[Offset(parts, sep, i)..Offset(parts, sep, i) + |parts[i]|] == parts[i]
    {
      JoinPlacesPart(parts, sep, i);
    }
    forall i | 0 < i < |parts|
      ensures |sep| <= Offset(parts, sep, i) <= |Join(parts, sep)|
      ensures Join(parts, sep)[Offset(parts, sep, i) - |sep|..Offset(parts, sep, i)] == sep
    {
      JoinSeparatesPart(parts, sep, i);
    }
  }

  /** A slice of the second half of a concatenation. */
  lemma SliceAfter(x: string, y: string, lo: nat, hi: nat)
    requires lo <= hi <= |y|
    ensures (x + y)[|x| + lo..|x| + hi] == y[lo..hi]
  {
  }

  /** Dropping the first part moves every later offset back by that part and
      its separator. */
  lemma OffsetShift(parts: seq<string>, sep: string, i: nat)
    requires 0 < i <= |parts|
    ensures Offset(parts, sep, i) == |parts[0]| + |sep| + Offset(parts[1..], sep, i - 1)
  {
  }

  /** `text` is `open`, then `parts` in order, each but the first right after
      a separator, then `close`, and nothing else: its length is that of the
      opening, the parts, the separators between them and the closing. */
  predicate LaidOut(text: string, open: string, parts: seq<string>, sep: string, close: string)
  {
    && |text| == |open| + (if |parts| == 0 then 0 else Offset(parts, sep, |parts|) - |sep|) + |close|
    && |open| + |close| <= |text|
    && text[..|open|] == open
    && text[|text| - |close|..] == close
    && (forall i :: 0 <= i < |parts| ==>
          |open| + Offset(parts, sep, i) + |parts[i]| <= |text| &&
          text[|open| + Offset(parts, sep, i)..|open| + Offset(parts, sep, i) + |parts[i]|] == parts[i])
    && (forall i :: 0 < i < |parts| ==>
          |sep| <= Offset(parts, sep, i) && |open| + Offset(parts, sep, i) <= |text| &&
          text[|open| + Offset(parts, sep, i) - |sep|..|open| + Offset(parts, sep, i)] == sep)
  }

  /** Parts joined between an opening and a closing text are laid out in
      order. */
  lemma BlockLayout(open: string, parts: seq<string>, sep: string, close: string)
    ensures LaidOut(open + Join(parts, sep) + close, open, parts, sep, close)
  {
    var text := open + Join(parts, sep) + close;
    assert text[..|open|] == open;
    assert text[|text| - |close|..] == close;
    forall i | 0 <= i < |parts|
      ensures |open| + Offset(parts, sep, i) + |parts[i]| <= |text|
      ensures text[|open| + Offset(parts, sep, i)..|open| + Offset(parts, sep, i) + |parts[i]|] == parts[i]
    {
      BlockPart(open, parts, sep, close, i);
    }
    forall i | 0 < i < |parts|
      ensures |sep| <= Offset(parts, sep, i) && |open| + Offset(parts, sep, i) <= |text|
      ensures text[|open| + Offset(parts, sep, i) - |sep|..|open| + Offset(parts, sep, i)] == sep
    {
      BlockSeparator(open, parts, sep, close, i);
    }
  }

  lemma BlockPart(open: string, parts: seq<string>, sep: string, close: string, i: nat)
    requires i < |parts|
    ensures var text := open + Join(parts, sep) + close;
      var o := |open| + Offset(parts, sep, i);
      o + |parts[i]| <= |text| && text[o..o + |parts[i]|] == parts[i]
  {
    var mid := Join(parts, sep);
    JoinPlacesPart(parts, sep, i);
    var o := Offset(parts, sep, i);
    assert (open + mid + close)[|open| + o..|open| + o + |parts[i]|] == mid[o..o + |parts[i]|];
  }

  lemma BlockSeparator(open: string, parts: seq<string>, sep: string, close: string, i: nat)
    requires 0 < i < |parts|
    ensures var text := open + Join(parts, sep) + close;
      var o := |open| + Offset(parts, sep, i);
      |sep| <= Offset(parts, sep, i) && o <= |text| && text[o - |sep|..o] == sep
  {
    var mid := Join(parts, sep);
    JoinSeparatesPart(parts, sep, i);
    var o := Offset(parts, sep, i);
    assert (open + mid + close)[|open| + o - |sep|..|open| + o] == mid[o - |sep|..o];
  }

  /** Python `s.split(sep)` for a one-character separator: the maximal runs
      between separators, empty runs included, so the result is never empty
      and has one more part than `s` has separators. Joining the parts with
      the separator gives `s` back. */
  function Split(s: string, sep: char): (parts: seq<string>)
    ensures |parts| == multiset(s)[sep] + 1
    ensures forall i :: 0 <= i < |parts| ==> sep !in parts[i]
    ensures Join(parts, [sep]) == s
  {
    if |s| == 0 then [""]
    else
      var rest := Split(s[1..], sep);
      SplitStep(s, sep, rest);
      if s[0] == sep then [""] + rest else [[s[0]] + rest[0]] + rest[1..]
  }

  /** A string without the separator splits into itself. */
  lemma {:induction false} SplitNoSeparator(s: string, sep: char)
    requires sep !in s
    ensures Split(s, sep) == [s]
  {
    if |s| > 0 {
      SplitNoSeparator(s[1..], sep);
      assert s == [s[0]] + s[1..];
    }
  }

  /** The text before the first separator is the first part; the rest splits
      on its own. */
  lemma {:induction false} SplitFirst(a: string, sep: char, b: string)
    requires sep !in a
    ensures Split(a + [sep] + b, sep) == [a] + Split(b, sep)
  {
    var s := a + [sep] + b;
    if |a| == 0 {
      assert s[1..] == b;
    } else {
      assert s == [a[0]] + (a[1..] + [sep] + b);
      SplitFirst(a[1..], sep, b);
      SplitCons(a[0], a[1..] + [sep] + b, sep);
      assert [a[0]] + a[1..] == a;
    }
  }

  /** A character other than the separator joins the first part. */
  lemma SplitCons(c: char, t: string, sep: char)
    requires c != sep
    ensures Split([c] + t, sep) == [[c] + Split(t, sep)[0]] + Split(t, sep)[1..]
  {
    assert ([c] + t)[1..] == t;
  }

  /** One step of `Split`: the parts of `s[1..]` extended by `s[0]`, either
      as a new empty part before them or at the front of the first one. */
  lemma SplitStep(s: string, sep: char, rest: seq<string>)
    requires |s| > 0
    requires |rest| == multiset(s[1..])[sep] + 1
    requires forall i :: 0 <= i < |rest| ==> sep !in rest[i]
    requires Join(rest, [sep]) == s[1..]
    ensures var parts := if s[0] == sep then [""] + rest else [[s[0]] + rest[0]] + rest[1..];
      && |parts| == multiset(s)[sep] + 1
      && (forall i :: 0 <= i < |parts| ==> sep !in parts[i])
      && Join(parts, [sep]) == s
  {
    assert s == [s[0]] + s[1..];
    assert multiset(s) == multiset{s[0]} + multiset(s[1..]);
    if s[0] == sep {
      JoinAfterEmpty(rest, [sep]);
      var parts := [""] + rest;
      assert forall i :: 1 <= i < |parts| ==> parts[i] == rest[i - 1];
    } else {
      JoinExtendFirst(s[0], rest, [sep]);
      var parts := [[s[0]] + rest[0]] + rest[1..];
      assert forall i :: 1 <= i < |parts| ==> parts[i] == rest[i];
    }
  }

  /** An empty first part contributes only its separator. */
  lemma JoinAfterEmpty(rest: seq<string>, sep: string)
    requires |rest| > 0
    ensures Join([""] + rest, sep) == sep + Join(rest, sep)
  {
    assert ([""] + rest)[1..] == rest;
  }

  /** A character put in front of the first part comes first in the text. */
  lemma JoinExtendFirst(c: char, rest: seq<string>, sep: string)
    requires |rest| > 0
    ensures Join([[c] + rest[0]] + rest[1..], sep) == [c] + Join(rest, sep)
  {
    var parts := [[c] + rest[0]] + rest[1..];
    assert parts[1..] == rest[1..];
    if |rest| > 1 {
      assert [c] + rest[0] + sep + Join(rest[1..], sep) == [c] + (rest[0] + sep + Join(rest[1..], sep));
    }
  }

  /** The text of a sequence of printed lines: each line followed by a newline. */
  function Unlines(lines: seq<string>): (r: string)
    ensures |lines| > 0 ==> |r| > 0 && r[|r| - 1] == '\n'
    ensures (forall i :: 0 <= i < |lines| ==> '\n' !in lines[i]) ==> multiset(r)['\n'] == |lines|
  {
    if |lines| == 0 then "" else lines[0] + "\n" + Unlines(lines[1..])
  }

  /** The printed lines are the lines joined by newlines, with a final
      newline after the last. */
  lemma {:induction false} UnlinesIsJoin(lines: seq<string>)
    requires |lines| > 0
    ensures Unlines(lines) == Join(lines, "\n") + "\n"
  {
    if |lines| > 1 {
      UnlinesIsJoin(lines[1..]);
    }
  }
}
