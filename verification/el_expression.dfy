/** EL tokens: `re.findall(r"\$\{(.+?)\}", s)`, the `${path}` references the
    executor substitutes (app/core/executor.py, Executor.el_exp and
    get_el_expression). */
module ElExpression {
  import opened Wrappers
  import Text

  /** Offset, within `t`, of the first `}` reached before any line break:
      the lazy `.+?` stops at the first `}` and `.` never matches `\n`. */
  function CloseOffset(t: string): (r: Option<nat>)
    ensures r.Some? ==> r.value < |t| && t[r.value] == '}'
    ensures r.Some? ==> forall k :: 0 <= k < r.value ==> t[k] != '}' && t[k] != '\n'
    ensures r.None? ==> forall k :: 0 <= k < |t| && t[k] == '}' ==> exists m :: 0 <= m < k && t[m] == '\n'
  {
    if t == [] then None
    else if t[0] == '}' then Some(0)
    else if t[0] == '\n' then None
    else match CloseOffset(t[1..])
      case None => None
      case Some(k) => Some(k + 1)
  }

  /** The non-overlapping matches of `\$\{(.+?)\}` in `s`, left to right;
      after a match the scan resumes behind its `}`, after a miss one
      character further on. */
  function Tokens(s: string): (r: seq<string>)
    ensures 4 * |r| <= |s|
    decreases |s|
  {
    if |s| < 4 then []
    else if s[0] == '$' && s[1] == '{' && s[2] != '\n' then
      match CloseOffset(s[3..])
      case Some(k) => [s[2..3 + k]] + Tokens(s[4 + k..])
      case None => Tokens(s[1..])
    else Tokens(s[1..])
  }

  /** get_el_expression: no tokens in a None field. */
  function GetElExpression(field: Option<string>): (r: seq<string>)
    ensures field.None? ==> r == []
    ensures field.Some? ==> r == Tokens(field.value)
  {
    match field
    case None => []
    case Some(s) => Tokens(s)
  }

  /** The shape of a captured group: at least one character, no line break,
      and no `}` after its first character (the first may be `}`, as in
      `${}}`). */
  predicate WellFormedToken(v: string)
  {
    && |v| >= 1
    && (forall k :: 0 <= k < |v| ==> v[k] != '\n')
    && (forall k :: 1 <= k < |v| ==> v[k] != '}')
  }

  predicate HasOpener(s: string)
  {
    exists k :: 0 <= k < |s| - 1 && s[k] == '$' && s[k + 1] == '{'
  }

  /** A string without `${` has no tokens. */
  lemma {:induction false} NoOpenerNoTokens(s: string)
    requires !HasOpener(s)
    ensures Tokens(s) == []
    decreases |s|
  {
    if |s| >= 4 {
      assert !(s[0] == '$' && s[1] == '{');
      NoOpenerNoTokens(s[1..]);
    }
  }

  /** Every one of `vs` is well formed and occurs in `s` as `${v}`. */
  predicate OccurIn(s: string, vs: seq<string>)
  {
    forall v :: v in vs ==> WellFormedToken(v) && Text.Contains(s, "${" + v + "}")
  }

  /** Every token is well formed, and `${v}` occurs in the input. */
  lemma {:induction false} TokensOccur(s: string)
    ensures forall v :: v in Tokens(s) ==> WellFormedToken(v) && Text.Contains(s, "${" + v + "}")
    decreases |s|
  {
    if |s| >= 4 {
      if s[0] == '$' && s[1] == '{' && s[2] != '\n' && CloseOffset(s[3..]).Some? {
        var k := CloseOffset(s[3..]).value;
        assert s[3 + k] == s[3..][k];
        assert forall m :: 3 <= m < 3 + k ==> s[m] == s[3..][m - 3];
        TokensOccur(s[4 + k..]);
        OccurInSuffix(s, 4 + k, Tokens(s[4 + k..]));
        FirstTokenOccurs(s, k);
        assert Tokens(s) == [s[2..3 + k]] + Tokens(s[4 + k..]);
      } else {
        TokensOccur(s[1..]);
        OccurInSuffix(s, 1, Tokens(s[1..]));
        assert Tokens(s) == Tokens(s[1..]);
      }
    }
  }

  lemma OccurInSuffix(s: string, i: nat, vs: seq<string>)
    requires i <= |s| && OccurIn(s[i..], vs)
    ensures OccurIn(s, vs)
  {
    forall w | w in vs ensures Text.Contains(s, "${" + w + "}") {
      ContainsSuffix(s, i, "${" + w + "}");
    }
  }

  /** The token matched at the front of `s`: the group runs from index 2
      up to the `}` at index `3 + k`. */
  lemma FirstTokenOccurs(s: string, k: nat)
    requires 3 + k < |s| && s[0] == '$' && s[1] == '{' && s[2] != '\n' && s[3 + k] == '}'
    requires forall m :: 3 <= m < 3 + k ==> s[m] != '}' && s[m] != '\n'
    ensures WellFormedToken(s[2..3 + k]) && Text.Contains(s, "${" + s[2..3 + k] + "}")
  {
    var v := s[2..3 + k];
    var u := s[3..3 + k];
    forall m | 0 <= m < |u| ensures u[m] != '}' && u[m] != '\n' { assert u[m] == s[3 + m]; }
    FirstTokenShape(s[2], u);
    assert v == [s[2]] + u;
    assert s == [] + ("${" + v + "}") + s[4 + k..] by {
      assert s == s[..2] + s[2..3 + k] + [s[3 + k]] + s[4 + k..];
      assert s[..2] == "${";
    }
    Text.ContainsInfix([], "${" + v + "}", s[4 + k..]);
  }

  lemma FirstTokenShape(c: char, u: string)
    requires c != '\n' && forall m :: 0 <= m < |u| ==> u[m] != '}' && u[m] != '\n'
    ensures WellFormedToken([c] + u)
  {
    var v := [c] + u;
    forall j | 1 <= j < |v| ensures v[j] != '}' && v[j] != '\n' { assert v[j] == u[j - 1]; }
  }

  lemma {:induction false} ContainsSuffix(s: string, i: nat, p: string)
    requires i <= |s| && Text.Contains(s[i..], p)
    ensures Text.Contains(s, p)
    decreases i
  {
    if i > 0 {
      assert s[1..][i - 1..] == s[i..];
      ContainsSuffix(s[1..], i - 1, p);
    }
  }

  /** Matching is left to right: behind a prefix holding no `${`, a
      well-formed `${v}` yields `v` first and then exactly the tokens of the
      rest, so every such occurrence is found, wherever it stands. */
  lemma LeadingToken(p: string, v: string, rest: string)
    requires !HasOpener(p) && WellFormedToken(v)
    ensures Tokens(p + "${" + v + "}" + rest) == [v] + Tokens(rest)
  {
    var t := "${" + v + "}" + rest;
    assert p + "${" + v + "}" + rest == p + t;
    SkipPrefix(p, t);
    FrontToken(v, rest);
  }

  /** No match starts inside a prefix without `${` when the text behind it
      starts with `$`. */
  lemma {:induction false} SkipPrefix(p: string, t: string)
    requires !HasOpener(p) && |t| >= 4 && t[0] == '$'
    ensures Tokens(p + t) == Tokens(t)
    decreases |p|
  {
    if p != [] {
      var s := p + t;
      assert s[1..] == p[1..] + t;
      if |p| >= 2 {
        assert !(p[0] == '$' && p[1] == '{');
        assert s[0] == p[0] && s[1] == p[1];
      } else {
        assert s[1] == t[0];
      }
      assert !HasOpener(p[1..]) by {
        forall k | 0 <= k < |p[1..]| - 1
          ensures !(p[1..][k] == '$' && p[1..][k + 1] == '{')
        {
          assert p[1..][k] == p[k + 1] && p[1..][k + 1] == p[k + 2];
        }
      }
      assert Tokens(s) == Tokens(s[1..]);
      SkipPrefix(p[1..], t);
    } else {
      assert p + t == t;
    }
  }

  /** A string that begins with a well-formed `${v}` yields `v` first. */
  lemma FrontToken(v: string, rest: string)
    requires WellFormedToken(v)
    ensures Tokens("${" + v + "}" + rest) == [v] + Tokens(rest)
  {
    var s := "${" + v + "}" + rest;
    var k := |v| - 1;
    assert s[3..] == v[1..] + "}" + rest;
    CloseAfter(v[1..], rest);
    assert s[2..3 + k] == v;
    assert s[4 + k..] == rest;
  }

  lemma CloseAfter(u: string, rest: string)
    requires forall k :: 0 <= k < |u| ==> u[k] != '}' && u[k] != '\n'
    ensures CloseOffset(u + "}" + rest) == Some(|u|)
    decreases |u|
  {
    if u != [] {
      assert (u + "}" + rest)[1..] == u[1..] + "}" + rest;
      CloseAfter(u[1..], rest);
    }
  }
}
