/**
  The names a function's arguments end up with. The prototype names argument `i`
  after parameter `i`, and the function's symbol table keeps local names unique:
  a name already taken gets a numeric suffix. The suffix is the next value of one
  counter per function, starting at 1 and never reset, tried until the result is
  free. The code generator registers each argument under the name it ends up with.
 */
module Naming {

  predicate IsDigits(s: string) {
    forall k :: 0 <= k < |s| ==> '0' <= s[k] <= '9'
  }

  /** `name` is `base` followed by at least one decimal digit. */
  predicate Suffixed(name: string, base: string) {
    |name| > |base| && name[..|base|] == base && IsDigits(name[|base|..])
  }

  function Digit(d: nat): char
    requires d < 10
  {
    "0123456789"[d]
  }

  /** The decimal numeral of `n`, most significant digit first, without leading zeros. */
  function Decimal(n: nat): (s: string)
    ensures |s| > 0 && IsDigits(s)
    decreases n
  {
    if n < 10 then [Digit(n)] else Decimal(n / 10) + [Digit(n % 10)]
  }

  function Pow10(k: nat): (p: nat)
    ensures p > 0
  {
    if k == 0 then 1 else 10 * Pow10(k - 1)
  }

  /** A number of at least 10^k has more than k digits. */
  lemma {:induction false} DecimalLength(n: nat, k: nat)
    requires Pow10(k) <= n
    ensures |Decimal(n)| > k
    decreases n
  {
    if k > 0 {
      assert n >= 10;
      assert Pow10(k - 1) <= n / 10;
      DecimalLength(n / 10, k - 1);
    }
  }

  /** The length of the longest name of the list. */
  function Longest(names: seq<string>): (m: nat)
    ensures forall s :: s in names ==> |s| <= m
  {
    if |names| == 0 then 0
    else
      var t := Longest(names[1..]);
      if |names[0]| > t then |names[0]| else t
  }

  /** A suffixed name that is taken has a suffix no longer than the longest taken name. */
  lemma TakenSuffixBounded(base: string, taken: seq<string>, n: nat)
    requires base + Decimal(n) in taken
    ensures n < Pow10(Longest(taken))
  {
    if n >= Pow10(Longest(taken)) {
      DecimalLength(n, Longest(taken));
    }
  }

  /**
    The renaming loop: `base` followed by the counter's next value, until the name
    is free. Yields the name and the counter's new value.
   */
  function Probe(base: string, taken: seq<string>, last: nat): (r: (string, nat))
    ensures r.0 !in taken && r.1 > last
    ensures r.0 == base + Decimal(r.1)
    decreases Pow10(Longest(taken)) - last
  {
    var candidate := base + Decimal(last + 1);
    if candidate !in taken then (candidate, last + 1)
    else
      TakenSuffixBounded(base, taken, last + 1);
      Probe(base, taken, last + 1)
  }

  /** The name one argument gets, given the names `taken` by earlier arguments, and the counter afterwards. */
  function NameArg(p: string, taken: seq<string>, last: nat): (r: (string, nat))
    ensures r.0 !in taken
    ensures p !in taken ==> r == (p, last)
    ensures p in taken ==> Suffixed(r.0, p)
  {
    if p !in taken then (p, last)
    else
      var r := Probe(p, taken, last);
      assert r.0[..|p|] == p && r.0[|p|..] == Decimal(r.1);
      r
  }

  /** The names of the arguments `params`, after the earlier arguments took `taken` with the counter at `last`. */
  function ArgNamesFrom(params: seq<string>, taken: seq<string>, last: nat): (names: seq<string>)
    ensures |names| == |params|
    decreases |params|
  {
    if |params| == 0 then []
    else
      var r := NameArg(params[0], taken, last);
      [r.0] + ArgNamesFrom(params[1..], taken + [r.0], r.1)
  }

  /** The names of a function's arguments: a fresh function has no names taken and its counter at 0. */
  function ArgNames(params: seq<string>): seq<string> {
    ArgNamesFrom(params, [], 0)
  }

  /** No name of the list is one of `taken`. */
  predicate NoneTaken(names: seq<string>, taken: seq<string>) {
    forall j :: 0 <= j < |names| ==> names[j] !in taken
  }

  /** No two positions of the list hold the same name. */
  predicate Distinct(names: seq<string>) {
    forall j, k :: 0 <= j < k < |names| ==> names[j] != names[k]
  }

  /** The names given are pairwise distinct, and none was taken before. */
  lemma {:induction false} ArgNamesFromFresh(params: seq<string>, taken: seq<string>, last: nat)
    ensures NoneTaken(ArgNamesFrom(params, taken, last), taken)
    ensures Distinct(ArgNamesFrom(params, taken, last))
    decreases |params|
  {
    if |params| > 0 {
      var r := NameArg(params[0], taken, last);
      var rest := ArgNamesFrom(params[1..], taken + [r.0], r.1);
      ArgNamesFromFresh(params[1..], taken + [r.0], r.1);
      var names := ArgNamesFrom(params, taken, last);
      assert names == [r.0] + rest;
      forall j | 0 < j < |names| ensures names[j] !in taken && names[j] != names[0] {
        assert names[j] == rest[j - 1] && rest[j - 1] !in taken + [r.0];
      }
      forall j, k | 0 < j < k < |names| ensures names[j] != names[k] {
        assert names[j] == rest[j - 1] && names[k] == rest[k - 1];
      }
    }
  }

  /**
    Argument `j` keeps its parameter's name when no earlier argument has taken it;
    otherwise it gets that name with a numeric suffix.
   */
  lemma {:induction false} ArgNamesFromKeepOrSuffix(params: seq<string>, taken: seq<string>, last: nat)
    ensures var names := ArgNamesFrom(params, taken, last);
      forall j :: 0 <= j < |params| ==>
        && (params[j] !in taken + names[..j] ==> names[j] == params[j])
        && (params[j] in taken + names[..j] ==> Suffixed(names[j], params[j]))
    decreases |params|
  {
    if |params| > 0 {
      var r := NameArg(params[0], taken, last);
      var rest := ArgNamesFrom(params[1..], taken + [r.0], r.1);
      ArgNamesFromKeepOrSuffix(params[1..], taken + [r.0], r.1);
      var names := ArgNamesFrom(params, taken, last);
      assert names == [r.0] + rest;
      assert taken + names[..0] == taken;
      forall j | 0 < j < |params|
        ensures params[j] !in taken + names[..j] ==> names[j] == params[j]
        ensures params[j] in taken + names[..j] ==> Suffixed(names[j], params[j])
      {
        assert names[j] == rest[j - 1] && params[j] == params[1..][j - 1];
        assert taken + names[..j] == (taken + [r.0]) + rest[..j - 1];
      }
    }
  }

  /** A function's argument names are pairwise distinct. */
  lemma ArgNamesDistinct(params: seq<string>)
    ensures Distinct(ArgNames(params))
  {
    ArgNamesFromFresh(params, [], 0);
    assert ArgNames(params) == ArgNamesFrom(params, [], 0);
  }

  /**
    Argument `j` is named after its parameter unless an earlier argument already
    has that name, in which case it is the parameter's name with a numeric suffix.
   */
  lemma ArgNamesKeepOrSuffix(params: seq<string>)
    ensures var names := ArgNames(params);
      forall j :: 0 <= j < |params| ==>
        && (params[j] !in names[..j] ==> names[j] == params[j])
        && (params[j] in names[..j] ==> Suffixed(names[j], params[j]))
  {
    ArgNamesFromKeepOrSuffix(params, [], 0);
    var names := ArgNames(params);
    forall j | 0 <= j < |params| ensures [] + names[..j] == names[..j] { }
  }

  /** Every parameter name denotes some argument: the first one carrying it keeps it. */
  lemma ParamsAreNamed(params: seq<string>)
    ensures forall p :: p in params ==> p in ArgNames(params)
  {
    ArgNamesKeepOrSuffix(params);
    var names := ArgNames(params);
    forall p | p in params ensures p in names {
      var j :| 0 <= j < |params| && params[j] == p;
      if p !in names[..j] {
        assert names[j] == p;
      } else {
        assert names[..j] <= names;
      }
    }
  }

  /**
    Parameters `x`, `x`, `x1`: the second is renamed `x1`, which takes the third's
    name, so the third is renamed in turn with the counter's next value.
   */
  lemma RenamedNameIsRenamedAgain()
    ensures ArgNames(["x", "x", "x1"]) == ["x", "x1", "x12"]
  {
    var params := ["x", "x", "x1"];
    assert NameArg("x", [], 0) == ("x", 0);
    assert Decimal(1) == "1" && Decimal(2) == "2";
    assert "x" + Decimal(1) == "x1" && "x1" !in ["x"];
    assert "x1" + Decimal(2) == "x12" && "x12" !in ["x", "x1"];
    assert Probe("x", ["x"], 0) == ("x1", 1);
    assert Probe("x1", ["x", "x1"], 1) == ("x12", 2);
    assert ArgNamesFrom(params[2..], ["x", "x1"], 1) == ["x12"];
    assert ArgNamesFrom(params[1..], ["x"], 0) == ["x1", "x12"];
    assert ArgNamesFrom(params, [], 0) == ["x"] + ArgNamesFrom(params[1..], [] + ["x"], 0);
    assert [] + ["x"] == ["x"];
  }
}
