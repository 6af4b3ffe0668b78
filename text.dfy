/**
 * Strings as the scripts build them: `str.join`, newline-terminated lines,
 * suffix tests, and the code-point order that Python's `sorted` uses on names.
 */
module Text {

  /** Python's `sep.join(parts)`. */
  function Join(sep: string, parts: seq<string>): string
  {
    if |parts| == 0 then ""
    else if |parts| == 1 then parts[0]
    else parts[0] + sep + Join(sep, parts[1..])
  }

  /** Each line followed by a newline: what a run of `f.write(line + "\n")` calls leaves in a file. */
  function Unlines(lines: seq<string>): string
  {
    if lines == [] then "" else lines[0] + "\n" + Unlines(lines[1..])
  }

  predicate SingleLine(s: string)
  {
    '\n' !in s
  }

  predicate AllSingleLine(lines: seq<string>)
  {
    forall i :: 0 <= i < |lines| ==> SingleLine(lines[i])
  }

  /** Index of the first newline of `s`, or `|s|` when there is none. */
  function LineEnd(s: string): (k: nat)
    ensures k <= |s|
    ensures k < |s| ==> s[k] == '\n'
    ensures SingleLine(s[..k])
  {
    if s == [] || s[0] == '\n' then 0
    else
      var k := 1 + LineEnd(s[1..]);
      assert s[..k] == [s[0]] + s[1..][..k - 1];
      k
  }

  /** The newline-terminated lines of a text (a last line without newline is kept too). */
  function Lines(s: string): seq<string>
    decreases |s|
  {
    if s == [] then []
    else
      var k := LineEnd(s);
      [s[..k]] + (if k < |s| then Lines(s[k + 1..]) else [])
  }

  lemma {:induction false} LineEndAfter(line: string, rest: string)
    requires SingleLine(line)
    ensures LineEnd(line + "\n" + rest) == |line|
  {
    if line != [] {
      assert (line + "\n" + rest)[1..] == line[1..] + "\n" + rest;
      LineEndAfter(line[1..], rest);
    }
  }

  /** Splitting the text written by `Unlines` gives the lines back. */
  lemma {:induction false} LinesOfUnlines(lines: seq<string>)
    requires AllSingleLine(lines)
    ensures Lines(Unlines(lines)) == lines
  {
    if lines != [] {
      var rest := Unlines(lines[1..]);
      var s := lines[0] + "\n" + rest;
      LineEndAfter(lines[0], rest);
      assert s[..|lines[0]|] == lines[0];
      assert s[|lines[0]| + 1..] == rest;
      LinesOfUnlines(lines[1..]);
    }
  }

  lemma {:induction false} UnlinesAppend(a: seq<string>, b: seq<string>)
    ensures Unlines(a + b) == Unlines(a) + Unlines(b)
  {
    if a == [] {
      assert a + b == b;
    } else {
      assert (a + b)[0] == a[0] && (a + b)[1..] == a[1..] + b;
      UnlinesAppend(a[1..], b);
    }
  }

  /** A non-empty newline-join followed by one more newline is the same as terminating every part. */
  lemma {:induction false} JoinThenNewline(parts: seq<string>)
    requires parts != []
    ensures Join("\n", parts) + "\n" == Unlines(parts)
  {
    if |parts| > 1 {
      JoinThenNewline(parts[1..]);
    }
  }

  /** Python's `s.endswith(suffix)`. */
  predicate EndsWith(s: string, suffix: string)
  {
    |suffix| <= |s| && s[|s| - |suffix|..] == suffix
  }

  /** Python's strict `a < b` on `str`: code point by code point, a proper prefix first. */
  predicate Below(a: string, b: string)
  {
    if a == [] then b != []
    else if b == [] then false
    else if a[0] == b[0] then Below(a[1..], b[1..])
    else a[0] < b[0]
  }

  lemma {:induction false} BelowIrreflexive(a: string)
    ensures !Below(a, a)
  {
    if a != [] {
      BelowIrreflexive(a[1..]);
    }
  }

  lemma {:induction false} BelowTransitive(a: string, b: string, c: string)
    requires Below(a, b) && Below(b, c)
    ensures Below(a, c)
  {
    if a != [] && b != [] && c != [] && a[0] == b[0] && b[0] == c[0] {
      BelowTransitive(a[1..], b[1..], c[1..]);
    }
  }

  lemma {:induction false} BelowTotal(a: string, b: string)
    requires a != b
    ensures Below(a, b) || Below(b, a)
  {
    if a != [] && b != [] && a[0] == b[0] {
      assert a == [a[0]] + a[1..] && b == [b[0]] + b[1..];
      BelowTotal(a[1..], b[1..]);
    }
  }

  /** Strictly ascending in Python's string order (so also free of duplicates). */
  predicate Ascending(s: seq<string>)
  {
    forall i, j :: 0 <= i < j < |s| ==> Below(s[i], s[j])
  }

  /** Two ascending sequences holding the same names are the same sequence: `sorted` has one answer. */
  lemma {:induction false} AscendingUnique(a: seq<string>, b: seq<string>)
    requires Ascending(a) && Ascending(b)
    requires forall x :: x in a <==> x in b
    ensures a == b
  {
    if a != [] { assert a[0] in b; }
    if b != [] { assert b[0] in a; }
    if a != [] && b != [] {
      if a[0] != b[0] {
        assert a[0] in b;
        assert b[0] in a;
        var i :| 0 <= i < |b| && b[i] == a[0];
        var j :| 0 <= j < |a| && a[j] == b[0];
        assert i != 0 && j != 0;
        assert Below(b[0], a[0]) && Below(a[0], b[0]);
        BelowTransitive(a[0], b[0], a[0]);
        BelowIrreflexive(a[0]);
      }
      forall x ensures x in a[1..] <==> x in b[1..] {
        if x in a[1..] {
          var i :| 1 <= i < |a| && a[i] == x;
          assert Below(a[0], x);
          if x == a[0] { BelowIrreflexive(x); }
          assert x in b;
        }
        if x in b[1..] {
          var i :| 1 <= i < |b| && b[i] == x;
          assert Below(b[0], x);
          if x == b[0] { BelowIrreflexive(x); }
          assert x in a;
        }
      }
      AscendingUnique(a[1..], b[1..]);
    }
  }

  /** The least name of a non-empty set. */
  method Least(names: set<string>) returns (m: string)
    requires names != {}
    ensures m in names
    ensures forall x :: x in names && x != m ==> Below(m, x)
  {
    m :| m in names;
    var todo := names - {m};
    while todo != {}
      invariant todo <= names && m in names && m !in todo
      invariant forall x :: x in names - todo && x != m ==> Below(m, x)
      decreases todo
    {
      var y :| y in todo;
      BelowTotal(m, y);
      if Below(y, m) {
        forall x | x in names - todo && x != m
          ensures Below(y, x)
        {
          if x != y { BelowTransitive(y, m, x); }
        }
        m := y;
      }
      todo := todo - {y};
    }
  }

  /** Python's `sorted(names)` for a set of strings. */
  method SortNames(names: set<string>) returns (r: seq<string>)
    ensures Ascending(r)
    ensures forall x :: x in r <==> x in names
  {
    r := [];
    var rest := names;
    while rest != {}
      invariant rest <= names
      invariant forall x :: x in r <==> x in names && x !in rest
      invariant Ascending(r)
      invariant forall i, y :: 0 <= i < |r| && y in rest ==> Below(r[i], y)
      decreases rest
    {
      var m := Least(rest);
      r := r + [m];
      rest := rest - {m};
    }
  }

  /** `m` is the least element of `names`. */
  ghost predicate IsLeast(m: string, names: set<string>)
  {
    m in names && forall x :: x in names && x != m ==> Below(m, x)
  }

  /** The sorted enumeration of a set, as a specification. */
  ghost function Sorted(names: set<string>): (r: seq<string>)
    ensures Ascending(r)
    ensures forall x :: x in r <==> x in names
    decreases names
  {
    if names == {} then []
    else
      LeastExists(names);
      var m :| IsLeast(m, names);
      var tail := Sorted(names - {m});
      assert forall j :: 0 <= j < |tail| ==> Below(m, tail[j]) by {
        forall j | 0 <= j < |tail| ensures Below(m, tail[j]) {
          assert tail[j] in names - {m};
        }
      }
      [m] + tail
  }

  lemma {:induction false} LeastExists(names: set<string>)
    requires names != {}
    ensures exists m :: IsLeast(m, names)
    decreases names
  {
    var y :| y in names;
    if names - {y} == {} {
      forall x | x in names ensures x == y {
        assert x !in names - {y};
      }
      assert IsLeast(y, names);
    } else {
      LeastExists(names - {y});
      var m :| IsLeast(m, names - {y});
      BelowTotal(m, y);
      if Below(m, y) {
        assert IsLeast(m, names);
      } else {
        forall x | x in names && x != y ensures Below(y, x) {
          if x != m { BelowTransitive(y, m, x); }
        }
        assert IsLeast(y, names);
      }
    }
  }
}
