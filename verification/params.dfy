/** Flow-variable substitution over a case's columns (app/core/executor.py,
    parse_params), stated one column at a time.  Each substitution that
    replace_params finds is applied to the column's ORIGINAL text, so when
    a column holds two or more tokens only the last replacement survives;
    the corrected version applies them one after another, as replace_cls
    and parse_field do. */
module FlowParams {
  import opened Wrappers
  import opened Json
  import Dicts
  import Text
  import ElExpression
  import Resolver
  import Rewrite

  /** The loop of parse_params as written: every pair `(k, v)` sets the
      column to `field_origin.replace(k, v)`, always from the original text.
      A replacement that is not a string raises TypeError (`false`), leaving
      the value set by the previous pair. */
  function LastReplaceFrom(orig: string, cur: string, data: Dicts.Dict<string, JValue>): (r: (string, bool))
    ensures r.1 <==> forall i :: 0 <= i < |data| ==> data[i].1.JStr?
    ensures data == [] ==> r.0 == cur
    decreases |data|
  {
    if data == [] then (cur, true)
    else if !data[0].1.JStr? then (cur, false)
    else LastReplaceFrom(orig, Text.ReplaceAll(orig, data[0].0, data[0].1.s), data[1..])
  }

  /** parse_params on one column holding `fd`, as written. */
  function ParseParamsAsWritten(loads: Decoder, name: string, fd: Option<string>, params: Dicts.Dict<string, JValue>)
    : (r: (Option<string>, bool))
    ensures r.0.None? <==> fd.None?
    ensures fd.None? ==> r.1
    ensures fd.Some? && ElExpression.Tokens(fd.value) == [] ==> r == (fd, true)
    ensures r.1 ==> Resolver.Substitutions(loads, name, fd, params).Ok?
    ensures Resolver.Substitutions(loads, name, fd, params).Err? ==> r.0 == fd
  {
    match fd
    case None => (None, true)
    case Some(s) =>
      match Resolver.Substitutions(loads, name, fd, params)
      case Err(_) => (fd, false)
      case Ok(data) => var (t, ok) := LastReplaceFrom(s, s, data); (Some(t), ok)
  }

  /** parse_params on one column with the replacements chained, each
      applied to the text the previous one produced. */
  function ParseParamsField(loads: Decoder, name: string, fd: Option<string>, params: Dicts.Dict<string, JValue>)
    : (r: (Option<string>, bool))
    ensures r.0.None? <==> fd.None?
    ensures fd.None? ==> r.1
    ensures fd.Some? && ElExpression.Tokens(fd.value) == [] ==> r == (fd, true)
    ensures r.1 ==> Resolver.Substitutions(loads, name, fd, params).Ok?
    ensures Resolver.Substitutions(loads, name, fd, params).Err? ==> r.0 == fd
  {
    match fd
    case None => (None, true)
    case Some(s) =>
      match Resolver.Substitutions(loads, name, fd, params)
      case Err(_) => (fd, false)
      case Ok(data) => var (t, ok) := Rewrite.ApplySubstitutions(s, data); (Some(t), ok)
  }

  /** As written, the column ends up with only the last replacement applied
      to its original text. */
  lemma {:induction false} AsWrittenKeepsLast(orig: string, cur: string, data: Dicts.Dict<string, JValue>)
    requires data != [] && forall i :: 0 <= i < |data| ==> data[i].1.JStr?
    ensures LastReplaceFrom(orig, cur, data) == (Text.ReplaceAll(orig, data[|data| - 1].0, data[|data| - 1].1.s), true)
    decreases |data|
  {
    if |data| > 1 {
      assert forall i :: 0 <= i < |data[1..]| ==> data[1..][i] == data[i + 1];
      AsWrittenKeepsLast(orig, Text.ReplaceAll(orig, data[0].0, data[0].1.s), data[1..]);
    }
  }

  /** With at most one substitution the two versions agree. */
  lemma AgreeOnOneSubstitution(s: string, data: Dicts.Dict<string, JValue>)
    requires |data| <= 1
    ensures LastReplaceFrom(s, s, data) == Rewrite.ApplySubstitutions(s, data)
  {
    if |data| == 1 && data[0].1.JStr? {
      assert data[1..] == [];
    }
  }

  /** A one-segment token naming a non-empty string parameter resolves to
      that string. */
  lemma StringParam(loads: Decoder, name: string, params: Dicts.Dict<string, JValue>, k: string, x: string)
    requires '.' !in k && !Text.IsDigits(k) && Member(params, k) == JStr(x) && x != ""
    ensures Resolver.Substitution(loads, name, params, k) == Ok(Some(JStr(x)))
  {
    Text.SplitNoSep(k, '.');
    assert [k] == [k] + [];
    Resolver.WalkKey(loads, params, k, [], true);
  }

  lemma TwoTokens()
    ensures ElExpression.Tokens("${a}${b}") == ["a", "b"]
  {
    assert ElExpression.WellFormedToken("a") && ElExpression.WellFormedToken("b");
    assert "${a}${b}" == "${" + "a" + "}" + "${b}";
    assert "${b}" == "${" + "b" + "}" + "";
    ElExpression.FrontToken("a", "${b}");
    ElExpression.FrontToken("b", "");
    assert ElExpression.Tokens("") == [];
  }

  lemma TwoSubstitutions(loads: Decoder)
    ensures Resolver.Substitutions(loads, "url", Some("${a}${b}"), [("a", JStr("1")), ("b", JStr("2"))])
         == Ok([("${a}", JStr("1")), ("${b}", JStr("2"))])
  {
    var params := [("a", JStr("1")), ("b", JStr("2"))];
    TwoTokens();
    FirstSubstitution(loads);
    SecondSubstitution(loads);
    assert ["a", "b"][1..] == ["b"];
  }

  lemma FirstSubstitution(loads: Decoder)
    ensures Resolver.Substitution(loads, "url", [("a", JStr("1")), ("b", JStr("2"))], "a") == Ok(Some(JStr("1")))
    ensures Dicts.Put([], "${" + "a" + "}", JStr("1")) == [("${a}", JStr("1"))]
  {
    var params := [("a", JStr("1")), ("b", JStr("2"))];
    Resolver.ZeroDigits();
    assert Member(params, "a") == JStr("1");
    StringParam(loads, "url", params, "a", "1");
    assert "${" + "a" + "}" == "${a}";
  }

  /** The second token, added behind the first. */
  lemma SecondSubstitution(loads: Decoder)
    ensures Resolver.SubstitutionsFrom(loads, "url", [("a", JStr("1")), ("b", JStr("2"))], ["b"], [("${a}", JStr("1"))])
         == Ok([("${a}", JStr("1")), ("${b}", JStr("2"))])
  {
    var params := [("a", JStr("1")), ("b", JStr("2"))];
    Resolver.ZeroDigits();
    assert Member(params, "b") == JStr("2");
    StringParam(loads, "url", params, "b", "2");
    var acc1 := [("${a}", JStr("1"))];
    assert "${" + "b" + "}" == "${b}";
    assert "${a}" != "${b}" by { assert "${a}"[2] != "${b}"[2]; }
    assert acc1[1..] == [];
    var acc2 := Dicts.Put(acc1, "${" + "b" + "}", JStr("2"));
    assert acc2 == [acc1[0]] + Dicts.Put([], "${b}", JStr("2"));
    assert acc2 == [("${a}", JStr("1")), ("${b}", JStr("2"))];
    assert ["b"][1..] == [];
    assert Resolver.SubstitutionsFrom(loads, "url", params, [], acc2) == Ok(acc2);
  }

  /** `${a}${b}` in the url with flow variables a = "1" and b = "2": as
      written the column becomes `${a}2`. */
  lemma AsWrittenDropsFirst(loads: Decoder)
    ensures ParseParamsAsWritten(loads, "url", Some("${a}${b}"), [("a", JStr("1")), ("b", JStr("2"))])
         == (Some("${a}2"), true)
  {
    TwoSubstitutions(loads);
    var data := [("${a}", JStr("1")), ("${b}", JStr("2"))];
    AsWrittenKeepsLast("${a}${b}", "${a}${b}", data);
    ReplaceSecond();
  }

  lemma NotPrefix(a: string, s: string, i: nat)
    requires i < |a| && i < |s| && a[i] != s[i]
    ensures !(a <= s)
  {
  }

  lemma ReplaceSecond()
    ensures Text.ReplaceAll("${a}${b}", "${b}", "2") == "${a}2"
  {
    var s := "${a}${b}";
    var a := "${b}";
    NotPrefix(a, s, 2);
    NotPrefix(a, s[1..], 0);
    NotPrefix(a, s[2..], 0);
    NotPrefix(a, s[3..], 0);
    assert s[1..][1..] == s[2..] && s[2..][1..] == s[3..] && s[3..][1..] == s[4..];
    assert s[4..] == a && a[|a|..] == [];
    assert Text.ReplaceAll(s[4..], a, "2") == "2";
    assert Text.ReplaceAll(s[3..], a, "2") == "}2";
    assert Text.ReplaceAll(s[2..], a, "2") == "a}2";
    assert Text.ReplaceAll(s[1..], a, "2") == "{a}2";
  }

  /** The corrected version makes both replacements: `12`. */
  lemma CorrectedReplacesBoth(loads: Decoder)
    ensures ParseParamsField(loads, "url", Some("${a}${b}"), [("a", JStr("1")), ("b", JStr("2"))])
         == (Some("12"), true)
  {
    TwoSubstitutions(loads);
    ReplaceFirst();
    var data := [("${a}", JStr("1")), ("${b}", JStr("2"))];
    assert data[1..] == [("${b}", JStr("2"))];
    assert data[1..][1..] == [];
    assert Rewrite.ApplySubstitutions("12", []) == ("12", true);
    assert Rewrite.ApplySubstitutions("1${b}", data[1..]) == ("12", true);
  }

  lemma ReplaceFirst()
    ensures Text.ReplaceAll("${a}${b}", "${a}", "1") == "1${b}"
    ensures Text.ReplaceAll("1${b}", "${b}", "2") == "12"
  {
    var s := "${a}${b}";
    assert s[4..] == "${b}";
    NotPrefix("${a}", "${b}", 2);
    NotPrefix("${a}", "${b}"[1..], 0);
    NotPrefix("${a}", "${b}"[2..], 0);
    NotPrefix("${a}", "${b}"[3..], 0);
    assert !Text.Contains("${b}", "${a}");
    Text.ReplaceAbsent("${b}", "${a}", "1");
    var t := "1${b}";
    NotPrefix("${b}", t, 0);
    assert t[1..] == "${b}";
    assert "${b}"[4..] == [];
  }
}
