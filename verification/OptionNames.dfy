/**
 The two lists of options that clBuildProgram searches with strstr, and what such a search accepts:
 any prefix of a listed option.
 */
module OptionNames {
  const PARAMETERS := [
    "-cl-single-precision-constant", "-cl-fp32-correctly-rounded-divide-sqrt", "-cl-opt-disable",
    "-cl-mad-enable", "-cl-unsafe-math-optimizations", "-cl-finite-math-only", "-cl-fast-relaxed-math",
    "-cl-std=CL1.2", "-cl-std=CL1.1", "-cl-kernel-arg-info", "-w", "-g"]

  const UNSUPPORTED := ["-cl-strict-aliasing", "-cl-denorms-are-zero", "-cl-no-signed-zeros"]

  const CL_PARAMETERS :=
    "-cl-single-precision-constant " + "-cl-fp32-correctly-rounded-divide-sqrt " + "-cl-opt-disable "
    + "-cl-mad-enable " + "-cl-unsafe-math-optimizations " + "-cl-finite-math-only " + "-cl-fast-relaxed-math "
    + "-cl-std=CL1.2 " + "-cl-std=CL1.1 " + "-cl-kernel-arg-info " + "-w " + "-g "

  const NOT_YET_SUPPORTED := "-cl-strict-aliasing " + "-cl-denorms-are-zero " + "-cl-no-signed-zeros "

  /** The first n options as one string, each followed by a space. */
  function Listed(ps: seq<string>, n: nat): string
    requires n <= |ps|
  {
    if n == 0 then "" else Listed(ps, n - 1) + (ps[n - 1] + " ")
  }

  predicate IsWord(t: string) {
    t != "" && ' ' !in t && '\0' !in t
  }

  predicate Contains(hay: string, needle: string) {
    exists k :: 0 <= k <= |hay| && needle <= hay[k..]
  }

  predicate FrontEndOption(t: string) {
    "-cl" <= t || "-w" <= t || "-g" <= t
  }

  // ---------- what a search finds ----------

  /** "-cl", "-w" or "-g" stands at position k. */
  ghost predicate OptionAt(p: string, k: nat) {
    k + 1 < |p| && p[k] == '-' && (p[k + 1] == 'w' || p[k + 1] == 'g' || (k + 2 < |p| && p[k + 1] == 'c' && p[k + 2] == 'l'))
  }

  /** It stands nowhere but at the start. */
  ghost predicate OnlyFirst(p: string) {
    forall k: nat :: 0 < k < |p| ==> !OptionAt(p, k)
  }

  ghost predicate Options(ps: seq<string>) {
    forall i :: 0 <= i < |ps| ==> IsWord(ps[i]) && OnlyFirst(ps[i])
  }

  ghost predicate PrefixOfOne(ps: seq<string>, t: string) {
    exists i :: 0 <= i < |ps| && t <= ps[i]
  }

  ghost predicate ProperPrefixOfOne(ps: seq<string>, t: string) {
    exists i :: 0 <= i < |ps| && t < ps[i]
  }

  /** No option is a prefix of another. */
  ghost predicate Apart(ps: seq<string>) {
    forall i, j :: 0 <= i < |ps| && 0 <= j < |ps| && ps[i] <= ps[j] ==> i == j
  }

  lemma PrefixOrAll(t: string, p: string)
    requires t <= p
    ensures t < p || t == p
  {
    if |t| == |p| { assert t == p[..|t|]; }
  }

  lemma ProperPrefixIff(ps: seq<string>, t: string)
    requires Apart(ps)
    ensures t in ps ==> PrefixOfOne(ps, t)
    ensures ProperPrefixOfOne(ps, t) <==> PrefixOfOne(ps, t) && t !in ps
  {
    if t in ps {
      var j :| 0 <= j < |ps| && ps[j] == t;
      assert t <= ps[j];
      forall i | 0 <= i < |ps| ensures !(t < ps[i]) { assert ps[j] <= ps[i] ==> i == j; }
    } else if PrefixOfOne(ps, t) {
      var i :| 0 <= i < |ps| && t <= ps[i];
      PrefixOrAll(t, ps[i]);
      assert ps[i] in ps;
    }
    if ProperPrefixOfOne(ps, t) {
      var i :| 0 <= i < |ps| && t < ps[i];
      assert t <= ps[i];
    }
  }

  lemma StartsOption(p: string, k: nat, t: string)
    requires k <= |p| && t <= p[k..] && FrontEndOption(t)
    ensures OptionAt(p, k)
  {
    if "-cl" <= t { assert t[0] == '-' && t[1] == 'c' && t[2] == 'l'; }
    else if "-w" <= t { assert t[0] == '-' && t[1] == 'w'; }
    else { assert t[0] == '-' && t[1] == 'g'; }
    assert forall i :: 0 <= i < |t| ==> t[i] == p[k..][i];
  }

  /** What is found across a space contains it. */
  lemma AcrossSpace(hay: string, t: string, k: nat, gap: nat)
    requires k <= |hay| && t <= hay[k..] && gap < |hay| && hay[gap] == ' '
    ensures k <= gap < k + |t| ==> ' ' in t
  {
    if k <= gap < k + |t| { assert t[gap - k] == hay[gap]; }
  }

  lemma SameStart(a: string, b: string, t: string, k: nat)
    requires k + |t| <= |a| && t <= (a + b)[k..]
    ensures t <= a[k..]
  {
    assert forall i :: 0 <= i < |t| ==> (a + b)[k..][i] == a[k..][i];
  }

  /** A word found in a list is found before its last option or is a prefix of that. */
  lemma FoundInLast(front: string, p: string, t: string, k: nat)
    requires (front == "" || front[|front| - 1] == ' ') && IsWord(p) && OnlyFirst(p) && IsWord(t) && FrontEndOption(t)
    requires k <= |front + (p + " ")| && t <= (front + (p + " "))[k..]
    ensures Contains(front, t) || t <= p
  {
    var hay := front + (p + " ");
    assert hay == (front + p) + " ";
    AcrossSpace(hay, t, k, |front + p|);
    SameStart(front + p, " ", t, k);
    if front != "" { AcrossSpace(hay, t, k, |front| - 1); }
    if k < |front| {
      SameStart(front, p, t, k);
    } else {
      assert (front + p)[k..] == p[k - |front|..];
      StartsOption(p, k - |front|, t);
    }
  }

  lemma FoundWithLast(front: string, p: string, t: string)
    requires Contains(front, t) || t <= p
    ensures Contains(front + (p + " "), t)
  {
    var hay := front + (p + " ");
    if Contains(front, t) {
      var k :| 0 <= k <= |front| && t <= front[k..];
      assert hay[k..] == front[k..] + (p + " ");
      assert t <= hay[k..];
    } else {
      assert hay[|front|..] == p + " ";
      assert t <= hay[|front|..];
    }
  }

  lemma EndsInSpace(ps: seq<string>, n: nat)
    requires n <= |ps|
    ensures var s := Listed(ps, n); s == "" || s[|s| - 1] == ' '
  {
  }

  lemma FoundIff(front: string, p: string, t: string)
    requires (front == "" || front[|front| - 1] == ' ') && IsWord(p) && OnlyFirst(p) && IsWord(t) && FrontEndOption(t)
    ensures Contains(front + (p + " "), t) <==> Contains(front, t) || t <= p
  {
    var hay := front + (p + " ");
    if Contains(hay, t) {
      var k :| 0 <= k <= |hay| && t <= hay[k..];
      FoundInLast(front, p, t, k);
    }
    if Contains(front, t) || t <= p { FoundWithLast(front, p, t); }
  }

  ghost predicate PrefixAmong(ps: seq<string>, n: nat, t: string)
    requires n <= |ps|
  {
    exists i :: 0 <= i < n && t <= ps[i]
  }

  lemma OneMoreOption(ps: seq<string>, n: nat, t: string)
    requires 0 < n <= |ps|
    ensures PrefixAmong(ps, n, t) <==> PrefixAmong(ps, n - 1, t) || t <= ps[n - 1]
  {
    if PrefixAmong(ps, n - 1, t) {
      var i :| 0 <= i < n - 1 && t <= ps[i];
      assert i < n;
    }
  }

  /** strstr finds a word that starts like an option in such a list iff it is a prefix of one of the options. */
  lemma {:induction false} ListedIff(ps: seq<string>, n: nat, t: string)
    requires n <= |ps| && Options(ps) && IsWord(t) && FrontEndOption(t)
    ensures Contains(Listed(ps, n), t) <==> PrefixAmong(ps, n, t)
  {
    if n > 0 {
      ListedIff(ps, n - 1, t);
      EndsInSpace(ps, n - 1);
      FoundIff(Listed(ps, n - 1), ps[n - 1], t);
      OneMoreOption(ps, n, t);
    }
  }

  // ---------- the options ----------

  ghost predicate Option(p: string) {
    IsWord(p) && OnlyFirst(p)
  }

  lemma Precision()
    ensures Option("-cl-single-precision-constant")
  {
  }

  lemma RoundingDashes(k: nat)
    ensures var p := "-cl-fp32-correctly-rounded-divide-sqrt";
      k < |p| && p[k] == '-' ==> k == 0 || k == 3 || k == 8 || k == 18 || k == 26 || k == 33
  {
  }

  lemma RoundingIsWord()
    ensures IsWord("-cl-fp32-correctly-rounded-divide-sqrt")
  {
  }

  lemma Rounding()
    ensures Option("-cl-fp32-correctly-rounded-divide-sqrt")
  {
    var p := "-cl-fp32-correctly-rounded-divide-sqrt";
    RoundingIsWord();
    assert p[4] == 'f' && p[9] == 'c' && p[10] == 'o' && p[19] == 'r' && p[27] == 'd' && p[34] == 's';
    forall k: nat | 0 < k < |p| ensures !OptionAt(p, k) { RoundingDashes(k); }
  }

  lemma Disabling()
    ensures Option("-cl-opt-disable")
    ensures Option("-cl-mad-enable")
  {
  }

  lemma Optimizing()
    ensures Option("-cl-unsafe-math-optimizations")
  {
  }

  lemma Math()
    ensures Option("-cl-finite-math-only")
    ensures Option("-cl-fast-relaxed-math")
  {
  }

  lemma Rest()
    ensures Option("-cl-std=CL1.2")
    ensures Option("-cl-std=CL1.1")
    ensures Option("-cl-kernel-arg-info")
    ensures Option("-w")
    ensures Option("-g")
  {
  }

  lemma Aliasing()
    ensures Option("-cl-strict-aliasing")
  {
  }

  lemma Zeros()
    ensures Option("-cl-denorms-are-zero")
    ensures Option("-cl-no-signed-zeros")
  {
  }

  lemma ParametersAreOptions()
    ensures Options(PARAMETERS)
  {
    Precision();
    Rounding();
    Disabling();
    Optimizing();
    Math();
    Rest();
    forall i | 0 <= i < |PARAMETERS| ensures Option(PARAMETERS[i]) {
    }
  }

  lemma UnsupportedAreOptions()
    ensures Options(UNSUPPORTED)
  {
    Aliasing();
    Zeros();
    forall i | 0 <= i < |UNSUPPORTED| ensures Option(UNSUPPORTED[i]) {
    }
  }

  lemma ThreeMore(ps: seq<string>, n: nat)
    requires n + 3 <= |ps|
    ensures Listed(ps, n + 3) == Listed(ps, n) + (ps[n] + " ") + (ps[n + 1] + " ") + (ps[n + 2] + " ")
  {
    assert Listed(ps, n + 1) == Listed(ps, n) + (ps[n] + " ");
    assert Listed(ps, n + 2) == Listed(ps, n + 1) + (ps[n + 1] + " ");
  }

  lemma ThreeListed(ps: seq<string>)
    requires |ps| >= 3
    ensures Listed(ps, 3) == (ps[0] + " ") + (ps[1] + " ") + (ps[2] + " ")
  {
    ThreeMore(ps, 0);
    assert Listed(ps, 0) + (ps[0] + " ") == ps[0] + " ";
  }

  lemma TwelveListed(ps: seq<string>)
    requires |ps| >= 12
    ensures Listed(ps, 12)
            == (ps[0] + " ") + (ps[1] + " ") + (ps[2] + " ") + (ps[3] + " ") + (ps[4] + " ") + (ps[5] + " ")
               + (ps[6] + " ") + (ps[7] + " ") + (ps[8] + " ") + (ps[9] + " ") + (ps[10] + " ") + (ps[11] + " ")
  {
    ThreeListed(ps);
    ThreeMore(ps, 3);
    ThreeMore(ps, 6);
    ThreeMore(ps, 9);
  }

  /** The strings of the source are these lists. */
  lemma ParametersListed()
    ensures Listed(PARAMETERS, 12) == CL_PARAMETERS
  {
    TwelveListed(PARAMETERS);
    assert "-cl-single-precision-constant" + " " == "-cl-single-precision-constant ";
    assert "-cl-fp32-correctly-rounded-divide-sqrt" + " " == "-cl-fp32-correctly-rounded-divide-sqrt ";
    assert "-cl-opt-disable" + " " == "-cl-opt-disable ";
    assert "-cl-mad-enable" + " " == "-cl-mad-enable ";
    assert "-cl-unsafe-math-optimizations" + " " == "-cl-unsafe-math-optimizations ";
    assert "-cl-finite-math-only" + " " == "-cl-finite-math-only ";
    assert "-cl-fast-relaxed-math" + " " == "-cl-fast-relaxed-math ";
    assert "-cl-std=CL1.2" + " " == "-cl-std=CL1.2 ";
    assert "-cl-std=CL1.1" + " " == "-cl-std=CL1.1 ";
    assert "-cl-kernel-arg-info" + " " == "-cl-kernel-arg-info ";
    assert "-w" + " " == "-w ";
    assert "-g" + " " == "-g ";
  }

  lemma UnsupportedListed()
    ensures Listed(UNSUPPORTED, 3) == NOT_YET_SUPPORTED
  {
    ThreeListed(UNSUPPORTED);
    assert "-cl-strict-aliasing" + " " == "-cl-strict-aliasing ";
    assert "-cl-denorms-are-zero" + " " == "-cl-denorms-are-zero ";
    assert "-cl-no-signed-zeros" + " " == "-cl-no-signed-zeros ";
  }

  /** They differ in the letters after "-cl-", or else in the last; the short ones in the letter after the dash. */
  lemma FirstFew(i: nat, p: string)
    requires i < 5 && p == PARAMETERS[i]
    ensures |p| > 13 && p[1] == 'c'
    ensures [p[4], p[5]] == if i == 0 then ['s', 'i'] else if i == 1 then ['f', 'p'] else if i == 2 then ['o', 'p']
                            else if i == 3 then ['m', 'a'] else ['u', 'n']
  {
  }

  lemma LastFew(i: nat, p: string)
    requires 5 <= i < 12 && p == PARAMETERS[i]
    ensures i >= 10 ==> |p| == 2 && p[1] == if i == 10 then 'w' else 'g'
    ensures i < 10 ==> |p| > 5 && p[1] == 'c'
    ensures i < 10 ==>
      [p[4], p[5]] == if i == 5 then ['f', 'i'] else if i == 6 then ['f', 'a'] else if i == 9 then ['k', 'e'] else ['s', 't']
    ensures i == 7 || i == 8 ==> |p| == 13 && p[12] == if i == 7 then '2' else '1'
  {
  }

  lemma TwoApart(i: nat, j: nat, p: string, q: string)
    requires i < 12 && j < 12 && p == PARAMETERS[i] && q == PARAMETERS[j] && p <= q
    ensures i == j
  {
    if i < 5 { FirstFew(i, p); } else { LastFew(i, p); }
    if j < 5 { FirstFew(j, q); } else { LastFew(j, q); }
    assert p[1] == q[1] && (|p| > 5 ==> [p[4], p[5]] == [q[4], q[5]]) && (|p| == 13 ==> p[12] == q[12]);
  }

  lemma ParametersApart()
    ensures Apart(PARAMETERS)
  {
    forall i, j | 0 <= i < |PARAMETERS| && 0 <= j < |PARAMETERS| && PARAMETERS[i] <= PARAMETERS[j] ensures i == j {
      TwoApart(i, j, PARAMETERS[i], PARAMETERS[j]);
    }
  }

  /** Each of them starts like an option. */
  lemma ParametersStart(i: nat)
    requires i < |PARAMETERS|
    ensures FrontEndOption(PARAMETERS[i])
  {
    var p := PARAMETERS[i];
    if i < 5 { FirstFew(i, p); } else { LastFew(i, p); }
    Starts(i, p);
  }

  lemma Starts(i: nat, p: string)
    requires i < 12 && p == PARAMETERS[i]
    ensures i < 10 ==> "-cl" <= p
    ensures i == 10 ==> "-w" <= p
    ensures i == 11 ==> "-g" <= p
  {
  }

  lemma ParametersIff(t: string)
    requires IsWord(t) && FrontEndOption(t)
    ensures Contains(CL_PARAMETERS, t) <==> PrefixOfOne(PARAMETERS, t)
  {
    ParametersAreOptions();
    ParametersListed();
    ListedIff(PARAMETERS, 12, t);
  }

  lemma UnsupportedIff(t: string)
    requires IsWord(t) && FrontEndOption(t)
    ensures Contains(NOT_YET_SUPPORTED, t) <==> PrefixOfOne(UNSUPPORTED, t)
  {
    UnsupportedAreOptions();
    UnsupportedListed();
    ListedIff(UNSUPPORTED, 3, t);
  }
}
