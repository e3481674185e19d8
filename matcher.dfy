/** Suffix matching of file names against a list of extension rules.
    A rule is any string; a name matches a rule list when it ends with some
    rule of the list, compared exactly and case-sensitively. */
module Matcher {

  /** `name` ends with `suffix`; the empty suffix ends every name. */
  predicate EndsWith(name: string, suffix: string): (r: bool)
    ensures r <==> |suffix| <= |name| && name[..|name| - |suffix|] + suffix == name
  {
    |suffix| <= |name| && name[|name| - |suffix|..] == suffix
  }

  /** EndsWith agrees with the definition "name is some prefix followed by suffix". */
  lemma EndsWithIffConcat(name: string, suffix: string)
    ensures EndsWith(name, suffix) <==> exists prefix :: prefix + suffix == name
  {
    if EndsWith(name, suffix) {
      var prefix := name[..|name| - |suffix|];
      assert prefix + suffix == name;
    }
    if exists prefix :: prefix + suffix == name {
      var prefix :| prefix + suffix == name;
      assert name[|prefix|..] == suffix;
    }
  }

  /** Whether `name` ends with any rule of `rules`, trying the rules in order. */
  function Matches(name: string, rules: seq<string>): (r: bool)
    ensures r <==> exists i :: 0 <= i < |rules| && EndsWith(name, rules[i])
  {
    if |rules| == 0 then false
    else if EndsWith(name, rules[0]) then true
    else
      var rest := Matches(name, rules[1..]);
      assert forall i :: 1 <= i < |rules| ==> rules[i] == rules[1..][i - 1];
      rest
  }

  /** An empty rule list matches no name. */
  lemma NoRulesMatchNothing(name: string)
    ensures !Matches(name, [])
  {
  }

  /** The empty rule (what splitting a list with a trailing comma yields) matches every name. */
  lemma EmptyRuleMatchesEverything(name: string, rules: seq<string>)
    requires "" in rules
    ensures Matches(name, rules)
  {
    var i :| 0 <= i < |rules| && rules[i] == "";
    assert EndsWith(name, rules[i]);
  }

  /** Only the set of rules matters, not their order or repetitions. */
  lemma MatchesDependsOnRuleSet(name: string, rules1: seq<string>, rules2: seq<string>)
    requires forall r :: r in rules1 <==> r in rules2
    ensures Matches(name, rules1) == Matches(name, rules2)
  {
    if Matches(name, rules1) {
      var i :| 0 <= i < |rules1| && EndsWith(name, rules1[i]);
      assert rules1[i] in rules2;
      var j :| 0 <= j < |rules2| && rules2[j] == rules1[i];
      assert EndsWith(name, rules2[j]);
    }
    if Matches(name, rules2) {
      var i :| 0 <= i < |rules2| && EndsWith(name, rules2[i]);
      assert rules2[i] in rules1;
      var j :| 0 <= j < |rules1| && rules1[j] == rules2[i];
      assert EndsWith(name, rules1[j]);
    }
  }

  /** Matching is case-sensitive: an upper-case extension does not match a lower-case rule. */
  lemma MatchIsCaseSensitive()
    ensures !Matches("movie.MKV", [".mkv"])
    ensures Matches("movie.mkv", [".mkv"])
  {
    assert "movie.MKV"[5..] == ".MKV";
    assert "movie.mkv"[5..] == ".mkv";
  }

  /** A rule is a literal tail, not an extension: "nfo" matches "a.info". */
  lemma RuleIsLiteralSuffix()
    ensures Matches("a.info", ["nfo"])
    ensures !Matches("nfo.txt", [".nfo"])
  {
    assert "a.info"[3..] == "nfo";
    assert "nfo.txt"[3..] == ".txt";
  }
}
