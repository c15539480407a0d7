/**
 * The scaffolding script for a new domain remote (scripts/create-domain.mjs): the three
 * case converters, the collection of ports already in use and the search for the next
 * free one, and the defaults and derived identifiers of a new domain.
 */
module CreateDomain {
  import opened Wrappers
  import opened Text

  // ---------------------------------------------------------------------------
  // toKebabCase: three replacements in a row

  /** The class `[\s_]`. */
  predicate IsSep(c: char) { IsSpace(c) || c == '_' }

  predicate NoSeps(s: string) { forall i :: 0 <= i < |s| ==> !IsSep(s[i]) }
  predicate NoUpper(s: string) { forall i :: 0 <= i < |s| ==> !IsUpper(s[i]) }

  /** No lower-case letter is directly followed by an upper-case one. */
  predicate NoCamelPair(s: string) {
    forall i :: 0 <= i < |s| - 1 ==> !(IsLower(s[i]) && IsUpper(s[i + 1]))
  }

  /** `replace(/([a-z])([A-Z])/g, "$1-$2")`: the scan consumes each matched pair and
      resumes after it. */
  function HyphenateCamel(s: string): string {
    if |s| >= 2 && IsLower(s[0]) && IsUpper(s[1]) then [s[0], '-', s[1]] + HyphenateCamel(s[2..])
    else if s == [] then []
    else [s[0]] + HyphenateCamel(s[1..])
  }

  /** Reference definition: a hyphen between every lower-case letter and the upper-case
      letter right after it, and nowhere else. */
  function HyphenateEachPair(s: string): string {
    if |s| < 2 then s
    else [s[0]] + (if IsLower(s[0]) && IsUpper(s[1]) then "-" else "") + HyphenateEachPair(s[1..])
  }

  /** The scan and the reference agree: consuming a pair never hides another pair, since
      the upper-case letter that ends a pair cannot start one. */
  lemma {:induction false} HyphenateCamelIsEachPair(s: string)
    ensures HyphenateCamel(s) == HyphenateEachPair(s)
  {
    if |s| >= 2 && IsLower(s[0]) && IsUpper(s[1]) {
      HyphenateCamelIsEachPair(s[2..]);
      var t := s[1..];
      assert t[1..] == s[2..];
      if |t| >= 2 {
        assert HyphenateEachPair(t) == [s[1]] + HyphenateEachPair(s[2..]);
      } else {
        assert s[2..] == [];
      }
    } else if s != [] {
      HyphenateCamelIsEachPair(s[1..]);
    }
  }

  /** Text without a lower-upper pair (in particular "ABC" or "abc") is left alone. */
  lemma {:induction false} HyphenateCamelIdentity(s: string)
    requires NoCamelPair(s)
    ensures HyphenateCamel(s) == s
  {
    if s != [] {
      assert NoCamelPair(s[1..]);
      HyphenateCamelIdentity(s[1..]);
      assert s == [s[0]] + s[1..];
    }
  }

  /** The leading run of `[\s_]`. */
  function DropSeps(s: string): (r: string)
    ensures |r| <= |s| && r == s[|s| - |r|..]
    ensures r == [] || !IsSep(r[0])
    ensures forall i :: 0 <= i < |s| - |r| ==> IsSep(s[i])
  {
    if s != [] && IsSep(s[0]) then
      var r := DropSeps(s[1..]);
      assert forall i :: 0 < i < |s| ==> s[i] == s[1..][i - 1];
      r
    else s
  }

  /** `replace(/[\s_]+/g, "-")`: every maximal run of whitespace and underscores becomes
      one hyphen. */
  function CollapseSeps(s: string): (r: string)
    ensures NoSeps(r)
    decreases |s|
  {
    if s == [] then []
    else if IsSep(s[0]) then "-" + CollapseSeps(DropSeps(s))
    else [s[0]] + CollapseSeps(s[1..])
  }

  lemma {:induction false} CollapseSepsIdentity(s: string)
    requires NoSeps(s)
    ensures CollapseSeps(s) == s
  {
    if s != [] {
      assert NoSeps(s[1..]);
      CollapseSepsIdentity(s[1..]);
      assert s == [s[0]] + s[1..];
    }
  }

  /** A run of separators followed by something else collapses to one hyphen. */
  lemma {:induction false} CollapseRun(run: string, b: string)
    requires run != [] && forall i :: 0 <= i < |run| ==> IsSep(run[i])
    requires b == [] || !IsSep(b[0])
    ensures CollapseSeps(run + b) == "-" + CollapseSeps(b)
  {
    DropSepsOfRun(run, b);
  }

  lemma {:induction false} DropSepsOfRun(run: string, b: string)
    requires forall i :: 0 <= i < |run| ==> IsSep(run[i])
    requires b == [] || !IsSep(b[0])
    ensures DropSeps(run + b) == b
  {
    if run == [] {
      assert run + b == b;
    } else {
      assert (run + b)[1..] == run[1..] + b;
      DropSepsOfRun(run[1..], b);
    }
  }

  /** Collapsing works piece by piece when the first piece does not end inside a run. */
  lemma {:induction false} CollapseConcat(a: string, b: string)
    requires a == [] || !IsSep(a[|a| - 1])
    ensures CollapseSeps(a + b) == CollapseSeps(a) + CollapseSeps(b)
    decreases |a|, 1
  {
    if a == [] {
      assert a + b == b;
    } else if IsSep(a[0]) {
      CollapseConcatRun(a, b);
    } else {
      CollapseConcatPlain(a, b);
    }
  }

  lemma {:induction false} CollapseConcatRun(a: string, b: string)
    requires a != [] && IsSep(a[0]) && !IsSep(a[|a| - 1])
    ensures CollapseSeps(a + b) == CollapseSeps(a) + CollapseSeps(b)
    decreases |a|, 0
  {
    var d := DropSeps(a);
    DropSepsKeepsLast(a);
    DropSepsOfConcat(a, b);
    CollapseConcat(d, b);
    assert (a + b)[0] == a[0];
    CollapseOfLeadingRun(a + b);
    CollapseOfLeadingRun(a);
    ConcatAssoc("-", CollapseSeps(d), CollapseSeps(b));
  }

  lemma CollapseOfLeadingRun(s: string)
    requires s != [] && IsSep(s[0])
    ensures CollapseSeps(s) == "-" + CollapseSeps(DropSeps(s))
  {
  }

  lemma {:induction false} CollapseConcatPlain(a: string, b: string)
    requires a != [] && !IsSep(a[0]) && !IsSep(a[|a| - 1])
    ensures CollapseSeps(a + b) == CollapseSeps(a) + CollapseSeps(b)
    decreases |a|, 0
  {
    assert (a + b)[0] == a[0];
    assert (a + b)[1..] == a[1..] + b;
    CollapseConcat(a[1..], b);
    assert [a[0]] + (CollapseSeps(a[1..]) + CollapseSeps(b))
        == ([a[0]] + CollapseSeps(a[1..])) + CollapseSeps(b);
  }

  /** Dropping the leading run keeps a last character that is not a separator. */
  lemma DropSepsKeepsLast(a: string)
    requires a != [] && !IsSep(a[|a| - 1])
    ensures DropSeps(a) != [] && DropSeps(a)[|DropSeps(a)| - 1] == a[|a| - 1]
    ensures IsSep(a[0]) ==> |DropSeps(a)| < |a|
  {

  }

  lemma {:induction false} DropSepsOfConcat(a: string, b: string)
    requires DropSeps(a) != []
    ensures DropSeps(a + b) == DropSeps(a) + b
  {
    assert (a + b)[0] == a[0];
    if IsSep(a[0]) {
      assert (a + b)[1..] == a[1..] + b;
      DropSepsOfConcat(a[1..], b);
    }
  }

  /** `toLowerCase` on ASCII letters. */
  function LowerAll(s: string): (r: string)
    ensures |r| == |s| && forall i :: 0 <= i < |s| ==> r[i] == LowerChar(s[i])
  {
    if s == [] then [] else [LowerChar(s[0])] + LowerAll(s[1..])
  }

  lemma {:induction false} LowerAllConcat(a: string, b: string)
    ensures LowerAll(a + b) == LowerAll(a) + LowerAll(b)
  {
    assert LowerAll(a + b) == LowerAll(a) + LowerAll(b) by {
      var l, r := LowerAll(a + b), LowerAll(a) + LowerAll(b);
      assert |l| == |r|;
      forall i | 0 <= i < |l| ensures l[i] == r[i] {
        if i < |a| {
          assert (a + b)[i] == a[i];
        } else {
          assert (a + b)[i] == b[i - |a|];
        }
      }
    }
  }

  lemma LowerAllIdentity(s: string)
    requires NoUpper(s)
    ensures LowerAll(s) == s
  {
  }

  /** `toKebabCase`. */
  function ToKebabCase(s: string): (r: string)
    ensures NoUpper(r) && NoSeps(r)
  {
    var h := CollapseSeps(HyphenateCamel(s));
    var r := LowerAll(h);
    assert NoSeps(r) by {
      forall i | 0 <= i < |r| ensures !IsSep(r[i]) {
        assert !IsSep(h[i]);
      }
    }
    r
  }

  /** Kebab case is a fixed point: converting again changes nothing. */
  lemma KebabIdempotent(s: string)
    ensures ToKebabCase(ToKebabCase(s)) == ToKebabCase(s)
  {
    var k := ToKebabCase(s);
    assert NoCamelPair(k);
    HyphenateCamelIdentity(k);
    CollapseSepsIdentity(k);
    LowerAllIdentity(k);
  }

  /** Text already in kebab case comes back unchanged. */
  lemma KebabOfKebab(s: string)
    requires NoUpper(s) && NoSeps(s)
    ensures ToKebabCase(s) == s
  {
    assert NoCamelPair(s);
    HyphenateCamelIdentity(s);
    CollapseSepsIdentity(s);
    LowerAllIdentity(s);
  }

  /** Capitals with no lower-case letter before them get no hyphen: "ABC" becomes "abc". */
  lemma KebabOfCapitals(s: string)
    requires forall i :: 0 <= i < |s| ==> IsUpper(s[i])
    ensures ToKebabCase(s) == LowerAll(s)
  {
    CapitalsHaveNoPairOrSep(s);
    HyphenateCamelIdentity(s);
    CollapseSepsIdentity(s);
  }

  lemma CapitalsHaveNoPairOrSep(s: string)
    requires forall i :: 0 <= i < |s| ==> IsUpper(s[i])
    ensures NoCamelPair(s) && NoSeps(s)
  {
    forall i | 0 <= i < |s| - 1 ensures !(IsLower(s[i]) && IsUpper(s[i + 1])) {
      assert IsUpper(s[i]);
    }
    forall i | 0 <= i < |s| ensures !IsSep(s[i]) {
      assert IsUpper(s[i]);
    }
  }

  // ---------------------------------------------------------------------------
  // toPascalCase and toTitleCase

  /** `word.charAt(0).toUpperCase() + word.slice(1)`. */
  function Capitalize(w: string): (r: string)
    ensures |r| == |w|
    ensures w != [] ==> r[0] == UpperChar(w[0]) && r[1..] == w[1..]
  {
    if w == [] then [] else [UpperChar(w[0])] + w[1..]
  }

  function CapitalizeAll(ws: seq<string>): (r: seq<string>)
    ensures |r| == |ws| && forall i :: 0 <= i < |ws| ==> r[i] == Capitalize(ws[i])
  {
    if ws == [] then [] else [Capitalize(ws[0])] + CapitalizeAll(ws[1..])
  }

  /** The words of a hyphenated name, each capitalised. */
  function CapitalizedWords(s: string): seq<string> {
    CapitalizeAll(SplitOn(s, '-'))
  }

  /** `toPascalCase`: the capitalised words joined with nothing. */
  function ToPascalCase(s: string): string {
    JoinWith(CapitalizedWords(s), "")
  }

  /** `toTitleCase`: the capitalised words joined with one space. */
  function ToTitleCase(s: string): string {
    JoinWith(CapitalizedWords(s), " ")
  }

  lemma CapitalizeKeeps(w: string, c: char)
    requires c !in w && !IsUpper(c) && !IsLower(c)
    ensures c !in Capitalize(w)
  {
    if w != [] {
      var r := Capitalize(w);
      assert r == [r[0]] + w[1..];
      assert r[0] != c;
    }
  }

  /** Splitting a title-cased name (without spaces of its own) on " " gives back its
      capitalised words: every word boundary is one space. */
  lemma TitleWords(s: string)
    requires ' ' !in s
    ensures SplitOn(ToTitleCase(s), ' ') == CapitalizedWords(s)
  {
    var ws := SplitOn(s, '-');
    var cs := CapitalizedWords(s);
    forall i | 0 <= i < |cs| ensures ' ' !in cs[i] {
      PieceHasNo(s, '-', i, ' ');
      CapitalizeKeeps(ws[i], ' ');
    }
    SplitJoin(cs, ' ');
  }

  /** A character absent from the text is absent from every piece of it. */
  lemma {:induction false} PieceHasNo(s: string, c: char, i: nat, d: char)
    requires d !in s && i < |SplitOn(s, c)|
    ensures d !in SplitOn(s, c)[i]
  {
    if s != [] {
      var rest := SplitOn(s[1..], c);
      assert d !in s[1..];
      if s[0] == c {
        if i > 0 {
          PieceHasNo(s[1..], c, i - 1, d);
        }
      } else if i == 0 {
        PieceHasNo(s[1..], c, 0, d);
        assert d != s[0];
      } else {
        PieceHasNo(s[1..], c, i, d);
      }
    }
  }

  /** Deleting the separator from a join on it is the join on nothing. */
  lemma {:induction false} DeleteFromJoin(xs: seq<string>, c: char)
    requires forall i :: 0 <= i < |xs| ==> c !in xs[i]
    ensures DeleteChar(JoinWith(xs, [c]), c) == JoinWith(xs, "")
  {
    if |xs| == 1 {
      DeleteCharAbsent(xs[0], c);
    } else if |xs| > 1 {
      DeleteFromJoin(xs[1..], c);
      var rest := JoinWith(xs[1..], [c]);
      JoinCons(xs, [c]);
      JoinCons(xs, "");
      DeleteCharAppend(xs[0], [c] + rest, c);
      DeleteCharAppend([c], rest, c);
      DeleteCharAbsent(xs[0], c);
      assert DeleteChar([c], c) == [];
      assert [] + JoinWith(xs[1..], "") == "" + JoinWith(xs[1..], "");
    }
  }

  /** The two converters differ only in the separator: the Pascal-case name is the
      title-case name with its spaces removed. */
  lemma PascalIsTitleWithoutSpaces(s: string)
    requires ' ' !in s
    ensures DeleteChar(ToTitleCase(s), ' ') == ToPascalCase(s)
  {
    var ws := SplitOn(s, '-');
    var cs := CapitalizedWords(s);
    forall i | 0 <= i < |cs| ensures ' ' !in cs[i] {
      PieceHasNo(s, '-', i, ' ');
      CapitalizeKeeps(ws[i], ' ');
    }
    DeleteFromJoin(cs, ' ');
  }

  lemma LowerOfCapitalize(w: string)
    ensures LowerAll(Capitalize(w)) == LowerAll(w)
  {
    if w != [] {
      LowerAllConcat([UpperChar(w[0])], w[1..]);
      LowerAllConcat([w[0]], w[1..]);
      assert w == [w[0]] + w[1..];
      assert LowerChar(UpperChar(w[0])) == LowerChar(w[0]);
    }
  }

  lemma {:induction false} LowerOfCapitalizedJoin(ws: seq<string>)
    ensures LowerAll(JoinWith(CapitalizeAll(ws), "")) == LowerAll(JoinWith(ws, ""))
  {
    var cs := CapitalizeAll(ws);
    if |ws| == 1 {
      LowerOfCapitalize(ws[0]);
    } else if |ws| > 1 {
      LowerOfCapitalizedJoin(ws[1..]);
      assert CapitalizeAll(ws[1..]) == cs[1..];
      var cr, wr := JoinWith(cs[1..], ""), JoinWith(ws[1..], "");
      JoinCons(cs, "");
      JoinCons(ws, "");
      assert "" + cr == cr && "" + wr == wr;
      LowerAllConcat(cs[0], cr);
      LowerAllConcat(ws[0], wr);
      LowerOfCapitalize(ws[0]);
    }
  }

  /** Pascal case only drops the hyphens and changes letter case: lower-cased, it is the
      name without its hyphens. */
  lemma PascalLowered(s: string)
    ensures LowerAll(ToPascalCase(s)) == LowerAll(DeleteChar(s, '-'))
  {
    var ws := SplitOn(s, '-');
    JoinSplit(s, '-');
    DeleteFromJoin(ws, '-');
    LowerOfCapitalizedJoin(ws);
  }

  // ---------------------------------------------------------------------------
  // getUsedPorts and getNextAvailablePort

  /** The ports the script always treats as taken: the five existing applications. */
  const DefaultPorts: seq<int> := [3000, 3001, 3002, 3003, 3004]

  /** The first port the search tries. */
  const FirstCandidatePort: int := 3005

  /** `/port:\s*(\d+)/` matching at index `i`: the captured digits, read as a number. */
  function PortAt(content: string, i: nat): Option<nat> {
    if MatchesAt(content, "port:", i) then NumberAfterSpaces(content[i + 5..]) else None
  }

  /** `\s*(\d+)` at the start of `s`: spaces are skipped, then at least one digit. */
  function NumberAfterSpaces(s: string): Option<nat> {
    if s != [] && IsSpace(s[0]) then NumberAfterSpaces(s[1..])
    else
      var ds := LeadingDigits(s);
      if ds == [] then None else Some(DigitsValue(ds))
  }

  /** The index of the leftmost match at or after `from`. */
  function FindPort(content: string, from: nat): Option<nat>
    requires from <= |content|
    decreases |content| - from
  {
    if PortAt(content, from).Some? then Some(from)
    else if from == |content| then None
    else FindPort(content, from + 1)
  }

  /** `content.match(/port:\s*(\d+)/)`, with `parseInt` of the captured digits. */
  function PortIn(content: string): Option<nat> {
    match FindPort(content, 0)
    case None => None
    case Some(i) => PortAt(content, i)
  }

  /** The search finds the leftmost match, and finds none only when there is none. */
  lemma {:induction false} FindPortLeftmost(content: string, from: nat)
    requires from <= |content|
    ensures FindPort(content, from).Some? ==>
      var i := FindPort(content, from).value;
      from <= i <= |content| && PortAt(content, i).Some?
      && forall j :: from <= j < i ==> PortAt(content, j).None?
    ensures FindPort(content, from).None? ==>
      forall j :: from <= j <= |content| ==> PortAt(content, j).None?
    decreases |content| - from
  {
    if PortAt(content, from).None? && from < |content| {
      FindPortLeftmost(content, from + 1);
      assert FindPort(content, from) == FindPort(content, from + 1);
    }
  }

  /** A configuration that opens with a port entry yields that port. */
  lemma PortInOfEntry(spaces: string, n: nat, rest: string)
    requires AllSpace(spaces)
    requires rest == [] || !IsDigit(rest[0])
    ensures PortIn("port:" + spaces + NatToString(n) + rest) == Some(n)
  {
    var digits := NatToString(n);
    var content := "port:" + spaces + digits + rest;
    assert content == "port:" + (spaces + (digits + rest));
    assert content[..5] == "port:";
    assert MatchesAt(content, "port:", 0);
    assert content[5..] == spaces + (digits + rest);
    NumberAfterSpacesOf(spaces, n, rest);
    assert PortAt(content, 0) == Some(n);
    assert FindPort(content, 0) == Some(0);
  }

  lemma {:induction false} NumberAfterSpacesOf(spaces: string, n: nat, rest: string)
    requires AllSpace(spaces)
    requires rest == [] || !IsDigit(rest[0])
    ensures NumberAfterSpaces(spaces + (NatToString(n) + rest)) == Some(n)
  {
    var digits := NatToString(n);
    NatToStringValue(n);
    if spaces == [] {
      assert spaces + (digits + rest) == digits + rest;
      assert !IsSpace(digits[0]);
      LeadingDigitsOfConcat(digits, rest);
    } else {
      assert (spaces + (digits + rest))[1..] == spaces[1..] + (digits + rest);
      NumberAfterSpacesOf(spaces[1..], n, rest);
    }
  }

  /** What one application adds: nothing without a config file (`None`) or without a
      port entry, otherwise the port it names. */
  function PortsOf(config: Option<string>): seq<int> {
    match config
    case None => []
    case Some(content) => (match PortIn(content) case None => [] case Some(p) => [p as int])
  }

  /** The ports found in the configurations, in the order of the applications. */
  function ConfigPorts(configs: seq<Option<string>>): seq<int> {
    if configs == [] then []
    else ConfigPorts(configs[..|configs| - 1]) + PortsOf(configs[|configs| - 1])
  }

  lemma ConfigPortsStep(configs: seq<Option<string>>, k: nat)
    requires k < |configs|
    ensures ConfigPorts(configs[..k + 1]) == ConfigPorts(configs[..k]) + PortsOf(configs[k])
  {
    assert configs[..k + 1][..k] == configs[..k];
  }

  /** `[...new Set(xs)]`: each value once, at the place it first appears. */
  function Dedup(xs: seq<int>): seq<int> {
    DedupAfter(xs, {})
  }

  /** Dedup of what is left when the values in `seen` are already out. */
  function DedupAfter(xs: seq<int>, seen: set<int>): seq<int> {
    if xs == [] then []
    else if xs[0] in seen then DedupAfter(xs[1..], seen)
    else [xs[0]] + DedupAfter(xs[1..], seen + {xs[0]})
  }

  /** Dedup keeps exactly the values not yet seen. */
  lemma {:induction false} DedupAfterMembers(xs: seq<int>, seen: set<int>, x: int)
    ensures x in DedupAfter(xs, seen) <==> x in xs && x !in seen
  {
    if xs != [] {
      DedupAfterMembers(xs[1..], if xs[0] in seen then seen else seen + {xs[0]}, x);
      assert x in xs <==> x == xs[0] || x in xs[1..];
    }
  }

  /** Dedup keeps each value once. */
  lemma {:induction false} DedupAfterUnique(xs: seq<int>, seen: set<int>)
    ensures forall i, j :: 0 <= i < j < |DedupAfter(xs, seen)| ==>
      DedupAfter(xs, seen)[i] != DedupAfter(xs, seen)[j]
  {
    if xs != [] {
      if xs[0] in seen {
        DedupAfterUnique(xs[1..], seen);
      } else {
        var rest := DedupAfter(xs[1..], seen + {xs[0]});
        DedupAfterUnique(xs[1..], seen + {xs[0]});
        forall j | 0 <= j < |rest| ensures rest[j] != xs[0] {
          DedupAfterMembers(xs[1..], seen + {xs[0]}, rest[j]);
        }
      }
    }
  }

  /** The index of the first appearance of `x`. */
  function FirstIndex(xs: seq<int>, x: int): (k: nat)
    requires x in xs
    ensures k < |xs| && xs[k] == x && forall j :: 0 <= j < k ==> xs[j] != x
  {
    if xs[0] == x then 0 else 1 + FirstIndex(xs[1..], x)
  }

  /** The values of Dedup come in the order of their first appearance. */
  lemma {:induction false} DedupAfterOrder(xs: seq<int>, seen: set<int>, i: nat, j: nat)
    requires i < j < |DedupAfter(xs, seen)|
    ensures DedupAfter(xs, seen)[i] in xs && DedupAfter(xs, seen)[j] in xs
    ensures FirstIndex(xs, DedupAfter(xs, seen)[i]) < FirstIndex(xs, DedupAfter(xs, seen)[j])
    decreases |xs|, 2
  {
    if xs[0] in seen {
      DedupAfterOrderSkip(xs, seen, i, j);
    } else {
      DedupAfterOrderKeep(xs, seen, i, j);
    }
  }

  lemma {:induction false} DedupAfterOrderSkip(xs: seq<int>, seen: set<int>, i: nat, j: nat)
    requires xs != [] && xs[0] in seen
    requires i < j < |DedupAfter(xs, seen)|
    ensures DedupAfter(xs, seen)[i] in xs && DedupAfter(xs, seen)[j] in xs
    ensures FirstIndex(xs, DedupAfter(xs, seen)[i]) < FirstIndex(xs, DedupAfter(xs, seen)[j])
    decreases |xs|, 0
  {
    var r := DedupAfter(xs, seen);
    assert r == DedupAfter(xs[1..], seen);
    DedupAfterOrder(xs[1..], seen, i, j);
    DedupAfterMembers(xs[1..], seen, r[i]);
    DedupAfterMembers(xs[1..], seen, r[j]);
    FirstIndexOfTail(xs, r[i]);
    FirstIndexOfTail(xs, r[j]);
  }

  lemma {:induction false} DedupAfterOrderKeep(xs: seq<int>, seen: set<int>, i: nat, j: nat)
    requires xs != [] && xs[0] !in seen
    requires i < j < |DedupAfter(xs, seen)|
    ensures DedupAfter(xs, seen)[i] in xs && DedupAfter(xs, seen)[j] in xs
    ensures FirstIndex(xs, DedupAfter(xs, seen)[i]) < FirstIndex(xs, DedupAfter(xs, seen)[j])
    decreases |xs|, 1
  {
    KeptLater(xs, seen, j);
    if i == 0 {
      assert DedupAfter(xs, seen)[0] == xs[0];
    } else {
      KeptLater(xs, seen, i);
      DedupAfterOrder(xs[1..], seen + {xs[0]}, i - 1, j - 1);
    }
  }

  /** A value Dedup keeps after a kept head comes from the tail, where it appears first. */
  lemma KeptLater(xs: seq<int>, seen: set<int>, j: nat)
    requires xs != [] && xs[0] !in seen
    requires 0 < j < |DedupAfter(xs, seen)|
    ensures DedupAfter(xs, seen)[j] == DedupAfter(xs[1..], seen + {xs[0]})[j - 1]
    ensures DedupAfter(xs, seen)[j] in xs[1..] && DedupAfter(xs, seen)[j] in xs
    ensures FirstIndex(xs, DedupAfter(xs, seen)[j])
         == 1 + FirstIndex(xs[1..], DedupAfter(xs, seen)[j])
  {
    var rest := DedupAfter(xs[1..], seen + {xs[0]});
    assert DedupAfter(xs, seen) == [xs[0]] + rest;
    var y := rest[j - 1];
    DedupAfterMembers(xs[1..], seen + {xs[0]}, y);
    FirstIndexOfTail(xs, y);
  }

  lemma FirstIndexOfTail(xs: seq<int>, x: int)
    requires |xs| > 0 && x in xs[1..] && xs[0] != x
    ensures FirstIndex(xs, x) == 1 + FirstIndex(xs[1..], x)
  {
  }

  /** The ports `getUsedPorts` pushes: the defaults, then those found in the configs. */
  function PushedPorts(configs: seq<Option<string>>): seq<int> {
    DefaultPorts + ConfigPorts(configs)
  }

  lemma PushedPortsStep(configs: seq<Option<string>>, k: nat)
    requires k < |configs|
    ensures PushedPorts(configs[..k + 1]) == PushedPorts(configs[..k]) + PortsOf(configs[k])
  {
    ConfigPortsStep(configs, k);
    ConcatAssoc(DefaultPorts, ConfigPorts(configs[..k]), PortsOf(configs[k]));
  }

  /** The port list `getUsedPorts` returns. */
  function UsedPorts(configs: seq<Option<string>>): seq<int> {
    Dedup(PushedPorts(configs))
  }

  /** A port is in use exactly when it is a default port or one found in a config. */
  lemma UsedPortsMembers(configs: seq<Option<string>>, p: int)
    ensures p in UsedPorts(configs) <==> p in DefaultPorts || p in ConfigPorts(configs)
  {
    DedupAfterMembers(DefaultPorts + ConfigPorts(configs), {}, p);
  }

  /** The used ports have no duplicate, start with the five default ports, and keep the
      order in which the ports first appear. */
  lemma UsedPortsFacts(configs: seq<Option<string>>)
    ensures forall i, j :: 0 <= i < j < |UsedPorts(configs)| ==> UsedPorts(configs)[i] != UsedPorts(configs)[j]
    ensures |UsedPorts(configs)| >= 5 && UsedPorts(configs)[..5] == DefaultPorts
    ensures forall i, j :: 0 <= i < j < |UsedPorts(configs)| ==>
      UsedPorts(configs)[i] in DefaultPorts + ConfigPorts(configs)
      && UsedPorts(configs)[j] in DefaultPorts + ConfigPorts(configs)
      && FirstIndex(DefaultPorts + ConfigPorts(configs), UsedPorts(configs)[i])
       < FirstIndex(DefaultPorts + ConfigPorts(configs), UsedPorts(configs)[j])
  {
    var xs := DefaultPorts + ConfigPorts(configs);
    DedupAfterUnique(xs, {});
    forall i, j | 0 <= i < j < |UsedPorts(configs)|
      ensures UsedPorts(configs)[i] in xs && UsedPorts(configs)[j] in xs
      ensures FirstIndex(xs, UsedPorts(configs)[i]) < FirstIndex(xs, UsedPorts(configs)[j])
    {
      DedupAfterOrder(xs, {}, i, j);
    }
    DedupPrefix(ConfigPorts(configs));
  }

  lemma DedupPrefix(rest: seq<int>)
    ensures |Dedup(DefaultPorts + rest)| >= 5 && Dedup(DefaultPorts + rest)[..5] == DefaultPorts
  {
    var xs := DefaultPorts + rest;
    assert xs[1..] == [3001, 3002, 3003, 3004] + rest;
    assert xs[1..][1..] == [3002, 3003, 3004] + rest;
    assert xs[1..][1..][1..] == [3003, 3004] + rest;
    assert xs[1..][1..][1..][1..] == [3004] + rest;
    assert xs[1..][1..][1..][1..][1..] == rest;
    var s0: set<int> := {};
    var s1 := s0 + {3000};
    var s2 := s1 + {3001};
    var s3 := s2 + {3002};
    var s4 := s3 + {3003};
    var s5 := s4 + {3004};
    var r := DedupAfter(rest, s5);
    assert DedupAfter(xs[1..][1..][1..][1..], s4) == [3004] + r;
    assert DedupAfter(xs[1..][1..][1..], s3) == [3003] + ([3004] + r);
    assert DedupAfter(xs[1..][1..], s2) == [3002] + ([3003] + ([3004] + r));
    assert DedupAfter(xs[1..], s1) == [3001] + ([3002] + ([3003] + ([3004] + r)));
    assert DedupAfter(xs, s0) == [3000] + ([3001] + ([3002] + ([3003] + ([3004] + r))));
    assert DedupAfter(xs, s0)[..5] == DefaultPorts;
  }

  /** `getUsedPorts`: the defaults, then one push for each configuration that names a
      port, then duplicates dropped. */
  method GetUsedPorts(configs: seq<Option<string>>) returns (ports: seq<int>)
    ensures ports == UsedPorts(configs)
  {
    var pushed := DefaultPorts;
    assert pushed == PushedPorts(configs[..0]);
    var k := 0;
    while k < |configs|
      invariant 0 <= k <= |configs|
      invariant pushed == PushedPorts(configs[..k])
    {
      ghost var before := pushed;
      match configs[k] {
        case None =>
        case Some(content) =>
          var found := PortIn(content);
          if found.Some? {
            pushed := pushed + [found.value as int];
          }
      }
      assert pushed == before + PortsOf(configs[k]);
      PushedPortsStep(configs, k);
      k := k + 1;
    }
    assert configs[..k] == configs;
    ports := Dedup(pushed);
  }

  /** The number of entries at least `p`: it bounds the search. */
  function CountAtLeast(xs: seq<int>, p: int): nat {
    if xs == [] then 0 else (if xs[0] >= p then 1 else 0) + CountAtLeast(xs[1..], p)
  }

  lemma {:induction false} CountAtLeastDrops(xs: seq<int>, p: int)
    requires p in xs
    ensures CountAtLeast(xs, p + 1) < CountAtLeast(xs, p)
  {
    if xs[0] != p {
      CountAtLeastDrops(xs[1..], p);
    } else {
      CountAtLeastMono(xs[1..], p);
    }
  }

  lemma {:induction false} CountAtLeastMono(xs: seq<int>, p: int)
    ensures CountAtLeast(xs, p + 1) <= CountAtLeast(xs, p)
  {
    if xs != [] {
      CountAtLeastMono(xs[1..], p);
    }
  }

  /** `getNextAvailablePort`: counting up from 3005 to the first port not in use. */
  method NextAvailablePort(configs: seq<Option<string>>) returns (port: int)
    ensures port >= FirstCandidatePort && port !in UsedPorts(configs)
    ensures forall p :: FirstCandidatePort <= p < port ==> p in UsedPorts(configs)
  {
    var usedPorts := GetUsedPorts(configs);
    port := FirstCandidatePort;
    while port in usedPorts
      invariant port >= FirstCandidatePort
      invariant forall p :: FirstCandidatePort <= p < port ==> p in usedPorts
      decreases CountAtLeast(usedPorts, port)
    {
      CountAtLeastDrops(usedPorts, port);
      port := port + 1;
    }
  }

  /** The free port is also free of every configured port and of the defaults, and it is
      the only port with the search's properties. */
  lemma LeastFreePortUnique(configs: seq<Option<string>>, p: int, q: int)
    requires p >= FirstCandidatePort && p !in UsedPorts(configs)
    requires forall x :: FirstCandidatePort <= x < p ==> x in UsedPorts(configs)
    requires q >= FirstCandidatePort && q !in UsedPorts(configs)
    requires forall x :: FirstCandidatePort <= x < q ==> x in UsedPorts(configs)
    ensures p == q
    ensures p !in ConfigPorts(configs) && p !in DefaultPorts
  {
    UsedPortsMembers(configs, p);
  }

  // ---------------------------------------------------------------------------
  // The defaults and derived names of `main`

  datatype DomainError = NameRequired | AlreadyExists(name: string)

  /** What the script creates a domain from. */
  datatype DomainPlan = DomainPlan(
    domainName: string,
    basePath: string,
    port: int,
    navLabel: string,
    pascalName: string,
    routeId: string,
    remoteName: string)

  /** `input.trim() || fallback`. */
  function OrDefault(input: string, fallback: string): (r: string)
    ensures AllSpace(input) ==> r == fallback
    ensures !AllSpace(input) ==> r == Trim(input) && r != []
  {
    var t := Trim(input);
    if t == "" then fallback else t
  }

  /** `parseInt(portInput.trim(), 10) || defaultPort`: NaN and 0 are falsy. */
  function PortChoice(portInput: string, defaultPort: int): (r: int)
    ensures ParseInt(Trim(portInput)).None? ==> r == defaultPort
    ensures ParseInt(Trim(portInput)) == Some(0) ==> r == defaultPort
    ensures ParseInt(Trim(portInput)).Some? && ParseInt(Trim(portInput)).value != 0 ==>
      r == ParseInt(Trim(portInput)).value
  {
    match ParseInt(Trim(portInput))
    case None => defaultPort
    case Some(v) => if v == 0 then defaultPort else v
  }

  /** A typed non-zero port number is taken as it is. */
  lemma PortChoiceOfNumber(n: int, defaultPort: int)
    requires n != 0
    ensures PortChoice(IntToString(n), defaultPort) == n
  {
    var s := IntToString(n);
    assert !IsSpace(s[0]);
    NoDigitIsSpace(s);
    assert TrimStart(s) == s;
    assert TrimEnd(s) == s;
    ParseIntRoundTrip(n);
  }

  lemma NoDigitIsSpace(s: string)
    requires s != [] && IsDigit(s[|s| - 1])
    ensures !IsSpace(s[|s| - 1])
  {
  }

  /** An empty or blank answer takes the default port. */
  lemma PortChoiceOfBlank(portInput: string, defaultPort: int)
    requires AllSpace(portInput)
    ensures PortChoice(portInput, defaultPort) == defaultPort
  {
  }

  /** `main` after the prompts: the name is trimmed and kebab-cased and must be non-empty
      and new; each other answer falls back to its default when blank. `existingApps`
      are the names n for which apps/n exists (the path is normalised, so "." and ".."
      count as existing), `defaultPort` is NextAvailablePort's result. */
  function PlanDomain(nameInput: string, existingApps: set<string>, basePathInput: string,
                      portInput: string, defaultPort: int, navLabelInput: string)
    : (r: Result<DomainPlan, DomainError>)
    ensures r == Err(NameRequired) <==> ToKebabCase(Trim(nameInput)) == ""
    ensures r.Err? && r.error.AlreadyExists? <==>
      ToKebabCase(Trim(nameInput)) != "" && ToKebabCase(Trim(nameInput)) in existingApps
    ensures r.Ok? ==> r.value.domainName == ToKebabCase(Trim(nameInput))
  {
    var domainName := ToKebabCase(Trim(nameInput));
    if domainName == "" then Err(NameRequired)
    else if domainName in existingApps then Err(AlreadyExists(domainName))
    else Ok(DomainPlan(
      domainName,
      OrDefault(basePathInput, "/" + domainName),
      PortChoice(portInput, defaultPort),
      OrDefault(navLabelInput, ToTitleCase(domainName)),
      ToPascalCase(domainName),
      domainName + "-home",
      ReplaceAllChar(domainName, '-', '_')))
  }

  lemma RemoteNameHasNoHyphen(d: string)
    ensures '-' !in ReplaceAllChar(d, '-', '_')
  {
    var r := ReplaceAllChar(d, '-', '_');
    forall i | 0 <= i < |r| ensures r[i] != '-' {
      assert r[i] == if d[i] == '-' then '_' else d[i];
    }
  }

  /** Blank answers give the defaults: base path "/" + name, the given port and the
      title-cased name as the label. */
  lemma PlanDefaults(nameInput: string, existingApps: set<string>, basePathInput: string,
                     portInput: string, defaultPort: int, navLabelInput: string)
    requires PlanDomain(nameInput, existingApps, basePathInput, portInput, defaultPort, navLabelInput).Ok?
    requires AllSpace(basePathInput) && AllSpace(portInput) && AllSpace(navLabelInput)
    ensures var p := PlanDomain(nameInput, existingApps, basePathInput, portInput, defaultPort, navLabelInput).value;
      && p.basePath == "/" + p.domainName
      && p.port == defaultPort
      && p.navLabel == ToTitleCase(p.domainName)
  {
    PortChoiceOfBlank(portInput, defaultPort);
  }

  /** The derived identifiers: the name is kebab case, the route id is the name with
      "-home" after it, and the remote name is the name with each "-" turned into "_"
      (so it has no hyphen left). */
  lemma PlanNames(nameInput: string, existingApps: set<string>, basePathInput: string,
                  portInput: string, defaultPort: int, navLabelInput: string)
    requires PlanDomain(nameInput, existingApps, basePathInput, portInput, defaultPort, navLabelInput).Ok?
    ensures var p := PlanDomain(nameInput, existingApps, basePathInput, portInput, defaultPort, navLabelInput).value;
      && p.domainName != [] && p.domainName !in existingApps
      && NoUpper(p.domainName) && NoSeps(p.domainName)
      && p.routeId[..|p.domainName|] == p.domainName && p.routeId[|p.domainName|..] == "-home"
      && |p.remoteName| == |p.domainName| && '-' !in p.remoteName
      && DeleteChar(ToTitleCase(p.domainName), ' ') == p.pascalName
  {
    var p := PlanDomain(nameInput, existingApps, basePathInput, portInput, defaultPort, navLabelInput).value;
    forall i | 0 <= i < |p.domainName| ensures p.domainName[i] != ' ' {
      assert !IsSep(p.domainName[i]);
    }
    PascalIsTitleWithoutSpaces(p.domainName);
    RemoteNameHasNoHyphen(p.domainName);
  }
}
