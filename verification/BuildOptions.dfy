/**
 clBuildProgram's option filter: split the option string at spaces, keep the options the front end
 knows, drop the ones it does not support yet, reject the rest; and the buffer the result grows in.
 */
module BuildOptions {
  import opened Common
  import opened OptionNames

  // ---------- words ----------

  ghost predicate Words(ts: seq<string>) {
    forall k :: 0 <= k < |ts| ==> IsWord(ts[k])
  }

  ghost predicate Short(ts: seq<string>) {
    forall k :: 0 <= k < |ts| ==> |ts[k]| <= 255
  }

  function WordLength(s: string): (n: nat)
    ensures n <= |s| && ' ' !in s[..n] && (n < |s| ==> s[n] == ' ')
  {
    if s == "" || s[0] == ' ' then 0 else 1 + WordLength(s[1..])
  }

  /** The words of a string, split at runs of spaces. */
  function Tokens(s: string): seq<string> {
    if s == "" then []
    else if s[0] == ' ' then Tokens(s[1..])
    else [s[..WordLength(s)]] + Tokens(s[WordLength(s)..])
  }

  /** Each word followed by a space. */
  function Join(ts: seq<string>): string {
    if ts == [] then "" else ts[0] + " " + Join(ts[1..])
  }

  lemma {:induction false} TokensAreWords(s: string)
    requires '\0' !in s
    ensures Words(Tokens(s))
    decreases |s|
  {
    if s != "" {
      if s[0] == ' ' { TokensAreWords(s[1..]); } else { TokensAreWords(s[WordLength(s)..]); }
    }
  }

  lemma {:induction false} WordLengthOf(t: string, rest: string)
    requires ' ' !in t
    ensures WordLength(t + " " + rest) == |t|
  {
    var s := t + " " + rest;
    if t != "" {
      assert s[1..] == t[1..] + " " + rest;
      WordLengthOf(t[1..], rest);
    }
  }

  /** Splitting what was joined gives back the words. */
  lemma {:induction false} TokensOfJoin(ts: seq<string>)
    requires Words(ts)
    ensures Tokens(Join(ts)) == ts
  {
    if ts != [] {
      var rest := Join(ts[1..]);
      var s := ts[0] + " " + rest;
      assert IsWord(ts[0]);
      WordLengthOf(ts[0], rest);
      assert s[..|ts[0]|] == ts[0] && s[|ts[0]|..] == " " + rest && (" " + rest)[1..] == rest;
      assert s[0] == ts[0][0];
      TokensOfJoin(ts[1..]);
    }
  }

  /** The first position from `save` on that is no space. */
  method SkipSpaces(s: string, save: nat) returns (start: nat)
    requires save <= |s|
    ensures save <= start <= |s| && (start < |s| ==> s[start] != ' ') && Tokens(s[save..]) == Tokens(s[start..])
  {
    start := save;
    while start < |s| && s[start] == ' '
      invariant save <= start <= |s|
      invariant Tokens(s[save..]) == Tokens(s[start..])
    {
      assert s[start..][1..] == s[start + 1..];
      start := start + 1;
    }
  }

  /** strtok_r: the next word from `save` on, and where to go on looking. */
  method NextToken(s: string, save: nat) returns (token: Option<string>, next: nat)
    requires save <= |s| && '\0' !in s
    ensures save <= next <= |s|
    ensures token.None? ==> Tokens(s[save..]) == []
    ensures token.Some? ==> Tokens(s[save..]) == [token.value] + Tokens(s[next..]) && IsWord(token.value) && save < next
  {
    var start := SkipSpaces(s, save);
    if start == |s| {
      return None, start;
    }
    var end := start;
    while end < |s| && s[end] != ' '
      invariant start <= end <= |s|
      invariant forall k :: start <= k < end ==> s[k] != ' '
    {
      end := end + 1;
    }
    FirstWord(s, start, end);
    token := Some(s[start..end]);
    next := if end < |s| then end + 1 else end;
  }

  lemma FirstWord(s: string, start: nat, end: nat)
    requires start < end <= |s| && (end < |s| ==> s[end] == ' ') && forall k :: start <= k < end ==> s[k] != ' '
    ensures Tokens(s[start..]) == [s[start..end]] + Tokens(s[if end < |s| then end + 1 else end..])
  {
    var t, n := s[start..], WordLength(s[start..]);
    assert n == end - start;
    assert t[..n] == s[start..end] && t[n..] == s[end..];
    if end < |s| { assert s[end..][1..] == s[end + 1..]; }
  }

  // ---------- the filter ----------

  predicate DefineOrInclude(t: string) {
    "-D" <= t || "-I" <= t
  }

  predicate Known(t: string) {
    Contains(CL_PARAMETERS, t)
  }

  predicate Unsupported(t: string) {
    FrontEndOption(t) && !Known(t) && Contains(NOT_YET_SUPPORTED, t)
  }

  datatype Verdict = Keep(options: seq<string>) | Invalid | Dangling

  function With(kept: seq<string>, v: Verdict): Verdict {
    if v.Keep? then Keep(kept + v.options) else v
  }

  /** Which options are passed on.  A lone -D or -I takes the next word with it; at the end it has none to take. */
  function Filter(ts: seq<string>): Verdict {
    if ts == [] then Keep([])
    else if FrontEndOption(ts[0]) then
      if Known(ts[0]) then With(ts[..1], Filter(ts[1..]))
      else if Unsupported(ts[0]) then Filter(ts[1..])
      else Invalid
    else if DefineOrInclude(ts[0]) then
      if |ts[0]| != 2 then With(ts[..1], Filter(ts[1..]))
      else if |ts| == 1 then Dangling
      else With(ts[..2], Filter(ts[2..]))
    else Invalid
  }

  lemma {:induction false} KeptAreInput(ts: seq<string>)
    requires Filter(ts).Keep?
    ensures Words(ts) ==> Words(Filter(ts).options)
    ensures Short(ts) ==> Short(Filter(ts).options)
    decreases |ts|
  {
    if ts == [] {
    } else if DefineOrInclude(ts[0]) && !FrontEndOption(ts[0]) && |ts[0]| == 2 {
      KeptAreInput(ts[2..]);
    } else {
      KeptAreInput(ts[1..]);
    }
  }

  /** kept is ts with some unsupported options left out, and nothing else. */
  ghost predicate OnlyUnsupportedDropped(kept: seq<string>, ts: seq<string>)
    decreases |ts|
  {
    if ts == [] then kept == []
    else
      || (kept != [] && kept[0] == ts[0] && OnlyUnsupportedDropped(kept[1..], ts[1..]))
      || (Unsupported(ts[0]) && OnlyUnsupportedDropped(kept, ts[1..]))
  }

  lemma {:induction false} FilterDropsOnlyUnsupported(ts: seq<string>)
    requires Filter(ts).Keep?
    ensures OnlyUnsupportedDropped(Filter(ts).options, ts)
    decreases |ts|
  {
    if ts == [] {
    } else if DefineOrInclude(ts[0]) && !FrontEndOption(ts[0]) && |ts[0]| == 2 {
      FilterDropsOnlyUnsupported(ts[2..]);
      var kept := Filter(ts).options;
      assert kept[1..][1..] == Filter(ts[2..]).options && ts[1..][1..] == ts[2..];
    } else {
      FilterDropsOnlyUnsupported(ts[1..]);
      if !Unsupported(ts[0]) { assert Filter(ts).options[1..] == Filter(ts[1..]).options; }
    }
  }

  /** What was kept is kept again. */
  lemma {:induction false} FilterIsIdempotent(ts: seq<string>)
    requires Filter(ts).Keep?
    ensures Filter(Filter(ts).options) == Filter(ts)
    decreases |ts|
  {
    if ts == [] {
    } else if DefineOrInclude(ts[0]) && !FrontEndOption(ts[0]) && |ts[0]| == 2 {
      FilterIsIdempotent(ts[2..]);
      var kept := Filter(ts).options;
      assert kept[..2] == ts[..2] && kept[2..] == Filter(ts[2..]).options;
    } else {
      FilterIsIdempotent(ts[1..]);
      if !Unsupported(ts[0]) {
        var kept := Filter(ts).options;
        assert kept[..1] == ts[..1] && kept[1..] == Filter(ts[1..]).options;
      }
    }
  }

  /**
   The verdict on an option that starts like one of the front end's, exactly: it is kept iff it is a
   prefix of a supported parameter, dropped iff it is a prefix of an unsupported one only, and rejected
   otherwise.
   */
  lemma VerdictIff(t: string)
    requires IsWord(t) && FrontEndOption(t)
    ensures Filter([t]) == if PrefixOfOne(PARAMETERS, t) then Keep([t])
                           else if PrefixOfOne(UNSUPPORTED, t) then Keep([])
                           else Invalid
  {
    ParametersIff(t);
    UnsupportedIff(t);
    assert [t][..1] == [t] && [t][1..] == [];
  }

  /** So it is kept although no parameter iff it is a proper prefix of one. */
  lemma KeptWronglyIff(t: string)
    requires IsWord(t) && FrontEndOption(t)
    ensures t in PARAMETERS ==> Filter([t]) == Keep([t])
    ensures Filter([t]) == Keep([t]) && t !in PARAMETERS <==> ProperPrefixOfOne(PARAMETERS, t)
  {
    VerdictIff(t);
    ParametersApart();
    ProperPrefixIff(PARAMETERS, t);
  }

  /** A definition or an include path written in one word is kept. */
  lemma DefinesAreKept(t: string)
    requires |t| > 2 && t[0] == '-' && (t[1] == 'D' || t[1] == 'I')
    ensures Filter([t]) == Keep([t])
  {
    assert t[..2] == (if t[1] == 'D' then "-D" else "-I") && DefineOrInclude(t);
    assert [t][..1] == [t] && [t][1..] == [];
  }

  /** A lone -D or -I is kept with the word that follows it, whatever that is. */
  lemma LoneTakesNext(t: string, u: string)
    requires t == "-D" || t == "-I"
    ensures Filter([t, u]) == Keep([t, u]) && Filter([t]) == Dangling
  {
    assert t[1] == 'D' || t[1] == 'I';
    assert DefineOrInclude(t) && !FrontEndOption(t);
    assert [t, u][..2] == [t, u] && [t, u][2..] == [];
  }

  /** A word that starts with none of the five prefixes is rejected. */
  lemma OthersAreRejected(t: string, rest: seq<string>)
    requires !("-cl" <= t) && !("-w" <= t) && !("-g" <= t) && !("-D" <= t) && !("-I" <= t)
    ensures Filter([t] + rest) == Invalid
  {
  }

  /** Each parameter is kept by itself. */
  lemma ParametersAreKept(i: nat)
    requires i < |PARAMETERS|
    ensures Filter([PARAMETERS[i]]) == Keep([PARAMETERS[i]])
  {
    ParametersAreOptions();
    ParametersStart(i);
    KeptWronglyIff(PARAMETERS[i]);
  }

  /** A list is filtered word by word; only a lone -D or -I looks at the next one. */
  lemma FilterSplits(t: string, rest: seq<string>)
    requires t != "-D" && t != "-I"
    ensures Filter([t] + rest)
            == if Filter([t]).Keep? then With(Filter([t]).options, Filter(rest)) else Filter([t])
  {
    var ts := [t] + rest;
    assert ts[1..] == rest && ts[..1] == [t] && [t][1..] == [] && [t][..1] == [t];
    NotAlone(t);
    WithAlone(t, Filter(rest));
  }

  lemma NotAlone(t: string)
    requires t != "-D" && t != "-I"
    ensures DefineOrInclude(t) ==> |t| != 2
  {
  }

  lemma WithAlone(t: string, v: Verdict)
    ensures With([t], Keep([])) == Keep([t]) && With([], v) == v
  {
    if v.Keep? { assert [] + v.options == v.options; }
    assert [t] + [] == [t];
  }

  /** For instance a version number cut short. */
  lemma CutShort()
    ensures "-cl-std=CL1." !in PARAMETERS && Filter(["-cl-std=CL1."]) == Keep(["-cl-std=CL1."])
  {
    var t := "-cl-std=CL1.";
    assert t < PARAMETERS[7];
    KeptWronglyIff(t);
  }

  // ---------- the buffer ----------

  const INITIAL_SIZE := 512
  const GROWTH := 256

  /** The buffer's size after room was made for len characters and a space, i - 1 characters being in it. */
  function Grown(size: nat, i: nat, len: nat): nat {
    if size <= i + len + 1 then size + GROWTH else size
  }

  /** There is room for them, the space and the terminating NUL. */
  predicate Fits(size: nat, i: nat, len: nat) {
    i + len + 1 <= Grown(size, i, len)
  }

  /** Growing once is enough iff the word is not too long for it, and always up to 255 characters. */
  lemma GrowthSuffices(size: nat, i: nat, len: nat)
    requires i < size
    ensures Fits(size, i, len) <==> i + len + 1 <= size + GROWTH
    ensures len <= 255 ==> i + len + 1 < Grown(size, i, len)
  {
  }

  /** The first growth: 512 characters become 768 when a word, its space and the NUL leave none of the 512 over. */
  lemma FirstGrowth(len: nat)
    ensures Grown(INITIAL_SIZE, 1, len) == if len >= 510 then 768 else 512
  {
  }

  class OptionBuffer {
    var chars: array<char>
    var size: nat
    var i: nat
    ghost var text: string

    /** A NUL-terminated string with text in it. */
    ghost predicate HoldsText()
      reads this, chars
    {
      && size == chars.Length && |text| < size && '\0' !in text
      && chars[..|text|] == text && chars[|text|] == '\0'
    }

    /** i counts the terminating character. */
    ghost predicate Valid()
      reads this, chars
    {
      HoldsText() && i == |text| + 1
    }

    constructor ()
      ensures Valid() && text == "" && size == INITIAL_SIZE && fresh(chars)
    {
      chars := new char[INITIAL_SIZE](_ => '\0');
      size, i, text := INITIAL_SIZE, 1, "";
    }

    /** strlen. */
    method Strlen() returns (end: nat)
      requires HoldsText()
      ensures end == |text|
    {
      assert forall k :: 0 <= k < |text| ==> chars[..|text|][k] == chars[k];
      end := 0;
      while chars[end] != '\0'
        invariant 0 <= end <= |text|
        decreases |text| - end
      {
        end := end + 1;
      }
    }

    /** strcat: find the end, then copy, then terminate. */
    method Strcat(t: string)
      requires HoldsText() && '\0' !in t && |text| + |t| < size
      modifies chars, `text
      ensures HoldsText() && text == old(text) + t
    {
      var end := Strlen();
      for k := 0 to |t|
        invariant text == old(text) && chars[..end] == text && chars[end..end + k] == t[..k]
      {
        chars[end + k] := t[k];
      }
      chars[end + |t|] := '\0';
      assert chars[..end] == text && chars[end..end + |t|] == t[..|t|] == t;
      assert chars[..end + |t|] == chars[..end] + chars[end..end + |t|];
      text := text + t;
    }

    /** strdup: the characters before the first NUL. */
    method Strdup() returns (s: string)
      requires HoldsText()
      ensures s == text
    {
      var end := Strlen();
      s := chars[..end];
    }

    /** The grow-and-append block; ok is false where strcat would write past the end. */
    method Append(token: string) returns (ok: bool)
      requires Valid() && '\0' !in token
      modifies this, chars
      ensures ok == Fits(old(size), old(i), |token|)
      ensures ok ==> Valid() && text == old(text) + token + " " && size == Grown(old(size), old(i), |token|)
      ensures chars == old(chars) || fresh(chars)
    {
      if size <= i + |token| + 1 {
        var swap := chars;
        chars := new char[size + GROWTH];
        for k := 0 to size
          invariant chars.Length == size + GROWTH && fresh(chars) && swap == old(chars) && swap[..] == old(chars[..])
          invariant size == old(size) && i == old(i) && text == old(text)
          invariant chars[..k] == swap[..k]
        {
          chars[k] := swap[k];
        }
        assert chars[..|text|] == swap[..|text|];
        size := size + GROWTH;
      }
      i := i + |token| + 1;
      if i > size {
        return false;
      }
      Strcat(token);
      Strcat(" ");
      return true;
    }
  }

  /** Overrun: a write past the end of the buffer; Undefined: strlen of a missing word. */
  datatype Outcome = Accepted(text: string) | InvalidOption | Undefined | Overrun

  /** What the loop does from here on, the buffer holding text. */
  function Process(ts: seq<string>, text: string, size: nat): Outcome {
    if ts == [] then Accepted(text)
    else if FrontEndOption(ts[0]) then
      if Known(ts[0]) then
        if Fits(size, |text| + 1, |ts[0]|)
        then Process(ts[1..], text + ts[0] + " ", Grown(size, |text| + 1, |ts[0]|))
        else Overrun
      else if Unsupported(ts[0]) then Process(ts[1..], text, size)
      else InvalidOption
    else if DefineOrInclude(ts[0]) then
      if !Fits(size, |text| + 1, |ts[0]|) then Overrun
      else
        var text', size' := text + ts[0] + " ", Grown(size, |text| + 1, |ts[0]|);
        if |ts[0]| != 2 then Process(ts[1..], text', size')
        else if |ts| == 1 then Undefined
        else if !Fits(size', |text'| + 1, |ts[1]|) then Overrun
        else Process(ts[2..], text' + ts[1] + " ", Grown(size', |text'| + 1, |ts[1]|))
    else InvalidOption
  }

  /** What a word that is written leads to, the others following. */
  function Writing(t: string, rest: seq<string>, text: string, size: nat): Outcome {
    if Fits(size, |text| + 1, |t|) then Process(rest, text + t + " ", Grown(size, |text| + 1, |t|)) else Overrun
  }

  lemma SingleWrites(ts: seq<string>, t: string, rest: seq<string>, text: string, size: nat)
    requires ts == [t] + rest && Single(t)
    ensures Process(ts, text, size) == Writing(t, rest, text, size)
  {
    assert ts[1..] == rest;
  }

  lemma DoubleWrites(ts: seq<string>, t: string, u: string, rest: seq<string>, text: string, size: nat)
    requires ts == [t] + ([u] + rest) && Double(t) && Fits(size, |text| + 1, |t|)
    ensures Process(ts, text, size) == Writing(u, rest, text + t + " ", Grown(size, |text| + 1, |t|))
  {
    assert ts[1] == u && ts[2..] == rest;
  }

  /** A word is written by itself. */
  predicate Single(t: string) {
    if FrontEndOption(t) then Known(t) else DefineOrInclude(t) && |t| != 2
  }

  /** A word takes the next one with it. */
  predicate Double(t: string) {
    !FrontEndOption(t) && DefineOrInclude(t) && |t| == 2
  }

  /** The outcome a verdict leads to when nothing overruns. */
  function Written(text: string, v: Verdict): Outcome {
    match v
    case Keep(options) => Accepted(text + Join(options))
    case Invalid => InvalidOption
    case Dangling => Undefined
  }

  lemma WrittenWith(text: string, kept: seq<string>, v: Verdict)
    requires |kept| == 1
    ensures Written(text + kept[0] + " ", v) == Written(text, With(kept, v))
  {
    if v.Keep? {
      assert (kept + v.options)[1..] == v.options;
      assert text + kept[0] + " " + Join(v.options) == text + (kept[0] + " " + Join(v.options));
    }
  }

  lemma WithBoth(a: string, b: string, v: Verdict)
    ensures With([a], With([b], v)) == With([a, b], v)
  {
    if v.Keep? { assert [a] + ([b] + v.options) == [a, b] + v.options; }
  }

  /** With words of at most 255 characters the buffer never overruns and holds exactly the options kept. */
  lemma {:induction false} ProcessIsFilter(ts: seq<string>, text: string, size: nat)
    requires Short(ts) && |text| + 1 < size
    ensures Process(ts, text, size) == Written(text, Filter(ts))
    decreases |ts|
  {
    if ts != [] {
      var t := ts[0];
      var text', size' := text + t + " ", Grown(size, |text| + 1, |t|);
      GrowthSuffices(size, |text| + 1, |t|);
      if FrontEndOption(t) {
        if Known(t) {
          ProcessIsFilter(ts[1..], text', size');
          WrittenWith(text, ts[..1], Filter(ts[1..]));
        } else if Unsupported(t) {
          ProcessIsFilter(ts[1..], text, size);
        }
      } else if DefineOrInclude(t) {
        if |t| != 2 {
          ProcessIsFilter(ts[1..], text', size');
          WrittenWith(text, ts[..1], Filter(ts[1..]));
        } else if |ts| > 1 {
          var rest := Filter(ts[2..]);
          GrowthSuffices(size', |text'| + 1, |ts[1]|);
          ProcessIsFilter(ts[2..], text' + ts[1] + " ", Grown(size', |text'| + 1, |ts[1]|));
          WrittenWith(text', [ts[1]], rest);
          WrittenWith(text, [t], With([ts[1]], rest));
          WithBoth(t, ts[1], rest);
          assert ts[..2] == [t, ts[1]];
        }
      }
    }
  }

  /** One long option overruns the first buffer iff it is over 766 characters. */
  lemma LongOption(t: string)
    requires DefineOrInclude(t) && |t| > 2
    ensures Process([t], "", INITIAL_SIZE) == Overrun <==> |t| > 766
  {
    if "-D" <= t { assert t[1] == 'D'; } else { assert t[1] == 'I'; }
    assert !FrontEndOption(t);
    assert [t][1..] == [];
  }

  /** The words the loop sets out to write, up to the first it rejects. */
  function Appended(ts: seq<string>): seq<string> {
    if ts == [] then []
    else if FrontEndOption(ts[0]) then
      if Known(ts[0]) then [ts[0]] + Appended(ts[1..])
      else if Unsupported(ts[0]) then Appended(ts[1..])
      else []
    else if DefineOrInclude(ts[0]) then
      if |ts[0]| != 2 then [ts[0]] + Appended(ts[1..])
      else if |ts| == 1 then [ts[0]]
      else [ts[0], ts[1]] + Appended(ts[2..])
    else []
  }

  /** The size of the buffer after those words, of which `used` characters were taken before. */
  function SizeAfter(ws: seq<string>, used: nat, size: nat): nat {
    if ws == [] then size else SizeAfter(ws[1..], used + |ws[0]| + 1, Grown(size, used, |ws[0]|))
  }

  predicate AllFit(ws: seq<string>, used: nat, size: nat) {
    ws == [] || (Fits(size, used, |ws[0]|) && AllFit(ws[1..], used + |ws[0]| + 1, Grown(size, used, |ws[0]|)))
  }

  ghost predicate OverrunsWhenUnfit(ts: seq<string>, text: string, size: nat) {
    Process(ts, text, size) == Overrun <==> !AllFit(Appended(ts), |text| + 1, size)
  }

  lemma SingleOverruns(ts: seq<string>, text: string, size: nat)
    requires ts != [] && Single(ts[0])
    requires OverrunsWhenUnfit(ts[1..], text + ts[0] + " ", Grown(size, |text| + 1, |ts[0]|))
    ensures OverrunsWhenUnfit(ts, text, size)
  {
    var t, rest := ts[0], Appended(ts[1..]);
    assert Appended(ts) == [t] + rest && ([t] + rest)[1..] == rest;
    assert |text + t + " "| == |text| + |t| + 1;
  }

  lemma DoubleOverruns(ts: seq<string>, text: string, size: nat, text': string, size': nat)
    requires |ts| > 1 && Double(ts[0]) && text' == text + ts[0] + " " && size' == Grown(size, |text| + 1, |ts[0]|)
    requires OverrunsWhenUnfit(ts[2..], text' + ts[1] + " ", Grown(size', |text'| + 1, |ts[1]|))
    ensures OverrunsWhenUnfit(ts, text, size)
  {
    var t, u, rest := ts[0], ts[1], Appended(ts[2..]);
    assert Appended(ts) == [t, u] + rest && ([t, u] + rest)[1..] == [u] + rest && ([u] + rest)[1..] == rest;
    assert |text'| == |text| + |t| + 1 && |text' + u + " "| == |text'| + |u| + 1;
    assert AllFit([t, u] + rest, |text| + 1, size) <==> Fits(size, |text| + 1, |t|) && AllFit([u] + rest, |text'| + 1, size');
  }

  lemma {:induction false} OverrunIff(ts: seq<string>, text: string, size: nat)
    ensures OverrunsWhenUnfit(ts, text, size)
    decreases |ts|
  {
    if ts == [] {
    } else if Single(ts[0]) {
      OverrunIff(ts[1..], text + ts[0] + " ", Grown(size, |text| + 1, |ts[0]|));
      SingleOverruns(ts, text, size);
    } else if Double(ts[0]) {
      if |ts| > 1 {
        var text', size' := text + ts[0] + " ", Grown(size, |text| + 1, |ts[0]|);
        OverrunIff(ts[2..], text' + ts[1] + " ", Grown(size', |text'| + 1, |ts[1]|));
        DoubleOverruns(ts, text, size, text', size');
      }
    } else if Unsupported(ts[0]) {
      OverrunIff(ts[1..], text, size);
    }
  }

  /** Word k does not fit although the buffer grows for it: it is longer than what is left and the growth. */
  predicate TooLongAt(ws: seq<string>, k: nat, used: nat, size: nat)
    requires k < |ws|
  {
    used + |Join(ws[..k])| + |ws[k]| + 1 > SizeAfter(ws[..k], used, size) + GROWTH
  }

  lemma TooLongNext(ws: seq<string>, k: nat, used: nat, size: nat)
    requires k + 1 < |ws|
    ensures TooLongAt(ws, k + 1, used, size) == TooLongAt(ws[1..], k, used + |ws[0]| + 1, Grown(size, used, |ws[0]|))
  {
    assert ws[..k + 1][1..] == ws[1..][..k];
  }

  lemma {:induction false} AllFitIff(ws: seq<string>, used: nat, size: nat)
    requires used <= size
    ensures AllFit(ws, used, size) <==> forall k: nat :: k < |ws| ==> !TooLongAt(ws, k, used, size)
  {
    if ws != [] {
      var used', size' := used + |ws[0]| + 1, Grown(size, used, |ws[0]|);
      assert ws[..0] == [];
      assert TooLongAt(ws, 0, used, size) <==> !Fits(size, used, |ws[0]|);
      if Fits(size, used, |ws[0]|) {
        AllFitIff(ws[1..], used', size');
        if forall k: nat :: k < |ws| - 1 ==> !TooLongAt(ws[1..], k, used', size') {
          forall k: nat | k < |ws| ensures !TooLongAt(ws, k, used, size) {
            if k > 0 { TooLongNext(ws, k - 1, used, size); }
          }
        } else {
          var k: nat :| k < |ws| - 1 && TooLongAt(ws[1..], k, used', size');
          TooLongNext(ws, k, used, size);
        }
      }
    }
  }

  /** The option string overruns the buffer iff one of the words written is too long where it comes. */
  lemma OptionsOverrunIff(options: string)
    ensures Process(Tokens(options), "", INITIAL_SIZE) == Overrun
            <==> exists k: nat :: k < |Appended(Tokens(options))| && TooLongAt(Appended(Tokens(options)), k, 1, INITIAL_SIZE)
  {
    var ws := Appended(Tokens(options));
    OverrunIff(Tokens(options), "", INITIAL_SIZE);
    assert Process(Tokens(options), "", INITIAL_SIZE) == Overrun <==> !AllFit(ws, 1, INITIAL_SIZE);
    AllFitIff(ws, 1, INITIAL_SIZE);
  }

  /**
   What is left where a word comes: as long as all words fit, the buffer's size is 512 plus
   growths, at least what is used, and no growth came too early.
   */
  lemma {:induction false} SizeIsTight(ws: seq<string>, used: nat, size: nat)
    requires AllFit(ws, used, size) && used <= size && size >= INITIAL_SIZE && (size - INITIAL_SIZE) % GROWTH == 0
    requires size > INITIAL_SIZE ==> size - GROWTH <= used
    ensures var end, total := SizeAfter(ws, used, size), used + |Join(ws)|;
      total <= end && end >= INITIAL_SIZE && (end - INITIAL_SIZE) % GROWTH == 0 && (end > INITIAL_SIZE ==> end - GROWTH <= total)
  {
    if ws != [] {
      SizeIsTight(ws[1..], used + |ws[0]| + 1, Grown(size, used, |ws[0]|));
    }
  }

  /** Filtering the filtered string changes nothing. */
  lemma FilteredAgain(options: string, text: string)
    requires '\0' !in options && Short(Tokens(options))
    requires Process(Tokens(options), "", INITIAL_SIZE) == Accepted(text)
    ensures Filter(Tokens(options)).Keep? && Tokens(text) == Filter(Tokens(options)).options
    ensures Process(Tokens(text), "", INITIAL_SIZE) == Accepted(text)
  {
    var ts := Tokens(options);
    ProcessIsFilter(ts, "", INITIAL_SIZE);
    var kept := Filter(ts).options;
    assert text == "" + Join(kept) == Join(kept);
    TokensAreWords(options);
    KeptAreInput(ts);
    TokensOfJoin(kept);
    FilterIsIdempotent(ts);
    ProcessIsFilter(kept, "", INITIAL_SIZE);
  }

  // ---------- the loop ----------

  /** The words still to come when token is the current one. */
  function Rest(token: Option<string>, s: string, save: nat): seq<string>
    requires save <= |s|
  {
    if token.None? then [] else [token.value] + Tokens(s[save..])
  }

  /** The end of a turn: the token is appended and the next one fetched. */
  method AppendAndFetch(options: string, buffer: OptionBuffer, t: string, save: nat) returns (ok: bool, token: Option<string>, next: nat)
    requires buffer.Valid() && '\0' !in options && '\0' !in t && save <= |options|
    modifies buffer, buffer.chars
    ensures ok == Fits(old(buffer.size), old(buffer.i), |t|)
    ensures save <= next <= |options| && (token.Some? ==> '\0' !in token.value)
    ensures ok ==> buffer.Valid() && Rest(token, options, next) == Tokens(options[save..])
                   && buffer.text == old(buffer.text) + t + " " && buffer.size == Grown(old(buffer.size), old(buffer.i), |t|)
    ensures buffer.chars == old(buffer.chars) || fresh(buffer.chars)
  {
    ok := buffer.Append(t);
    token, next := NextToken(options, save);
  }

  /** One turn of the loop: the outcome if it leaves the loop, else the next token. */
  method Turn(options: string, buffer: OptionBuffer, t: string, save: nat)
    returns (done: Option<Outcome>, token: Option<string>, next: nat)
    requires buffer.Valid() && '\0' !in options && '\0' !in t && save <= |options|
    modifies buffer, buffer.chars
    ensures next <= |options| && (token.Some? ==> '\0' !in token.value)
    ensures buffer.chars == old(buffer.chars) || fresh(buffer.chars)
    ensures done.None? ==> buffer.Valid() && |Rest(token, options, next)| <= |Tokens(options[save..])|
    ensures Process([t] + Tokens(options[save..]), old(buffer.text), old(buffer.size))
            == if done.Some? then done.value else Process(Rest(token, options, next), buffer.text, buffer.size)
  {
    done, token, next := None, Some(t), save;
    ghost var rest := Tokens(options[save..]);
    ghost var ts := [t] + rest;
    ghost var text, size := buffer.text, buffer.size;
    assert ts[1..] == rest;
    var ok;
    if FrontEndOption(t) {
      if Contains(CL_PARAMETERS, t) {
        SingleWrites(ts, t, rest, text, size);
      } else if Contains(NOT_YET_SUPPORTED, t) {
        token, next := NextToken(options, save);
        return;
      } else {
        done := Some(InvalidOption);
        return;
      }
    } else if DefineOrInclude(t) {
      ok, token, next := AppendAndFetch(options, buffer, t, save);
      if !ok {
        done := Some(Overrun);
        return;
      }
      if |t| != 2 {
        SingleWrites(ts, t, rest, text, size);
        return;
      }
      if token.None? {
        done := Some(Undefined);
        return;
      }
      DoubleWrites(ts, t, token.value, Tokens(options[next..]), text, size);
    } else {
      done := Some(InvalidOption);
      return;
    }
    assert Process(ts, text, size) == Writing(token.value, Tokens(options[next..]), buffer.text, buffer.size);
    ok, token, next := AppendAndFetch(options, buffer, token.value, next);
    if !ok {
      done := Some(Overrun);
    }
  }

  /** clBuildProgram's loop over the options. */
  method FilterOptions(options: string) returns (o: Outcome)
    requires '\0' !in options
    ensures o == Process(Tokens(options), "", INITIAL_SIZE)
  {
    var buffer := new OptionBuffer();
    assert options[0..] == options;
    ghost var result := Process(Tokens(options), "", INITIAL_SIZE);
    var token, save: nat := NextToken(options, 0);
    while token.Some?
      invariant buffer.Valid() && fresh(buffer) && fresh(buffer.chars) && save <= |options|
      invariant token.Some? ==> '\0' !in token.value
      invariant result == Process(Rest(token, options, save), buffer.text, buffer.size)
      decreases |Rest(token, options, save)|
    {
      var done;
      done, token, save := Turn(options, buffer, token.value, save);
      if done.Some? {
        return done.value;
      }
    }
    var text := buffer.Strdup();
    o := Accepted(text);
  }
}
