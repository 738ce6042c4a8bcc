/** The two domain normalisers, and what happens when one runs on the output of the other. */
module DomainNames {
  import opened Common

  const MAX_DOMAIN_BYTES := 253
  const MAX_LABEL_BYTES := 63

  /** Unicode White_Space. */
  predicate IsSpace(c: char) {
    || ('\U{0009}' <= c <= '\U{000D}') || c == ' ' || c == '\U{0085}' || c == '\U{00A0}' || c == '\U{1680}'
    || ('\U{2000}' <= c <= '\U{200A}') || c == '\U{2028}' || c == '\U{2029}' || c == '\U{202F}'
    || c == '\U{205F}' || c == '\U{3000}'
  }

  function TrimStart(s: string): string {
    if s != [] && IsSpace(s[0]) then TrimStart(s[1..]) else s
  }

  function TrimEnd(s: string): string {
    if s != [] && IsSpace(s[|s| - 1]) then TrimEnd(s[..|s| - 1]) else s
  }

  function Trim(s: string): string { TrimEnd(TrimStart(s)) }

  function TrimDots(s: string): string {
    if s != [] && s[|s| - 1] == '.' then TrimDots(s[..|s| - 1]) else s
  }

  function LowerChar(c: char): char {
    if 'A' <= c <= 'Z' then c - 'A' + 'a' else c
  }

  function Lower(s: string): (r: string)
    ensures |r| == |s| && forall i | 0 <= i < |s| :: r[i] == LowerChar(s[i])
  {
    seq(|s|, i requires 0 <= i < |s| => LowerChar(s[i]))
  }

  function Utf8Bytes(s: string): nat {
    if s == [] then 0
    else
      Utf8Bytes(s[..|s| - 1])
      + (if s[|s| - 1] < '\U{0080}' then 1 else if s[|s| - 1] < '\U{0800}' then 2
         else if s[|s| - 1] < '\U{10000}' then 3 else 4)
  }

  /** What both normalisers do first. */
  function Folded(s: string): string { Lower(TrimDots(Trim(s))) }

  /** The table's normaliser. */
  function FakeDnsName(s: string): Option<string> {
    var name := Folded(s);
    if name == [] || Utf8Bytes(name) > MAX_DOMAIN_BYTES then None else Some(name)
  }

  predicate LabelChar(c: char) { 'a' <= c <= 'z' || 'A' <= c <= 'Z' || '0' <= c <= '9' || c == '-' }

  predicate ValidLabel(l: string) {
    && l != [] && Utf8Bytes(l) <= MAX_LABEL_BYTES && l[0] != '-' && l[|l| - 1] != '-'
    && forall i | 0 <= i < |l| :: LabelChar(l[i])
  }

  /** Every dot-separated label of `s` is valid; `part` is the label being read. */
  predicate ValidLabels(part: string, s: string)
    decreases |s|
  {
    if s == [] then ValidLabel(part)
    else if s[0] == '.' then ValidLabel(part) && ValidLabels([], s[1..])
    else ValidLabels(part + [s[0]], s[1..])
  }

  /** The routing normaliser. */
  function RoutingName(s: string): Option<string> {
    var name := Folded(s);
    if name == [] || Utf8Bytes(name) > MAX_DOMAIN_BYTES || !ValidLabels([], name) then None else Some(name)
  }

  predicate EndsInSpace(s: string) { s != [] && IsSpace(s[|s| - 1]) }

  // ---------------------------------------------------------------- folding twice

  lemma {:induction false} TrimStartStops(s: string)
    ensures var t := TrimStart(s); t != [] ==> !IsSpace(t[0])
  {
    if s != [] && IsSpace(s[0]) { TrimStartStops(s[1..]); }
  }

  lemma {:induction false} TrimEndKeepsFront(s: string)
    ensures var t := TrimEnd(s); t <= s && (t != [] ==> !IsSpace(t[|t| - 1]))
    decreases |s|
  {
    if EndsInSpace(s) { TrimEndKeepsFront(s[..|s| - 1]); }
  }

  lemma {:induction false} TrimDotsKeepsFront(s: string)
    ensures var t := TrimDots(s); t <= s && (t != [] ==> t[|t| - 1] != '.')
    decreases |s|
  {
    if s != [] && s[|s| - 1] == '.' { TrimDotsKeepsFront(s[..|s| - 1]); }
  }

  lemma LowerKeeps(c: char)
    ensures IsSpace(LowerChar(c)) == IsSpace(c) && (LowerChar(c) == '.' <==> c == '.')
    ensures LowerChar(LowerChar(c)) == LowerChar(c)
  {
  }

  /** A folded name has no leading space and no trailing dot, and folding it again only trims trailing space. */
  lemma FoldedShape(s: string)
    ensures var n := Folded(s);
      && (n != [] ==> !IsSpace(n[0]) && n[|n| - 1] != '.')
      && Lower(n) == n
      && (!EndsInSpace(n) ==> Folded(n) == n)
  {
    var start := TrimStart(s);
    var trimmed := TrimEnd(start);
    var dotless := TrimDots(trimmed);
    TrimStartStops(s);
    TrimEndKeepsFront(start);
    TrimDotsKeepsFront(trimmed);
    var n := Lower(dotless);
    if n != [] {
      LowerKeeps(dotless[0]);
      LowerKeeps(dotless[|n| - 1]);
    }
    forall i | 0 <= i < |n| ensures Lower(n)[i] == n[i] { LowerKeeps(dotless[i]); }
    assert Lower(n) == n;
  }

  lemma {:induction false} LabelsHaveNoSpace(part: string, s: string)
    requires ValidLabels(part, s)
    ensures !EndsInSpace(s)
    decreases |s|
  {
    if |s| > 0 {
      if s[0] == '.' {
        LabelsHaveNoSpace([], s[1..]);
      } else {
        var longer := part + [s[0]];
        LabelsHaveNoSpace(longer, s[1..]);
        assert longer[|longer| - 1] == s[0];
      }
    }
  }

  lemma {:induction false} AtMostFourBytes(s: string)
    ensures Utf8Bytes(s) <= 4 * |s|
    decreases |s|
  {
    if s != [] { AtMostFourBytes(s[..|s| - 1]); }
  }

  /**
   * Routing on the name the table remembers gives the same answer as routing
   * on the name the client asked for, unless that name ends in white space
   * once its trailing dots are gone and is otherwise a valid name.
   */
  lemma RoutingSeesTheSameName(s: string)
    requires FakeDnsName(s).Some?
    ensures RoutingName(FakeDnsName(s).value) == RoutingName(s)
      <==> !(EndsInSpace(Folded(s)) && RoutingName(Folded(s)).Some?)
    ensures RoutingName(s).Some? ==> RoutingName(FakeDnsName(s).value) == RoutingName(s)
  {
    var n := Folded(s);
    FoldedShape(s);
    if EndsInSpace(n) && ValidLabels([], n) {
      LabelsHaveNoSpace([], n);
    }
  }

  /** Such a name exists: the route of "foo ." differs before and after the table. */
  lemma TrailingSpaceChangesTheRoute()
    ensures RoutingName("foo .") == None
    ensures FakeDnsName("foo .") == Some("foo ") && RoutingName("foo ") == Some("foo")
  {
    var a := "foo .";
    var b := "foo ";
    var c := "foo";
    assert a[..4] == b && b[..3] == c && b[1..] == "oo ";
    assert TrimStart(a) == a && TrimEnd(a) == a && TrimDots(a) == TrimDots(b) == b;
    assert TrimStart(b) == b && TrimEnd(b) == TrimEnd(c) == c && TrimDots(c) == c;
    assert Lower(b) == b && Lower(c) == c;
    assert Folded(a) == b && Folded(b) == c;
    AtMostFourBytes(b);
    AtMostFourBytes(c);
    assert ValidLabels([], c) by {
      assert c[1..] == "oo" && c[1..][1..] == "o" && c[1..][1..][1..] == "";
      assert [] + ['f'] == "f" && "f" + ['o'] == "fo" && "fo" + ['o'] == c;
      assert ValidLabel(c);
    }
    assert EndsInSpace(b);
    if ValidLabels([], b) {
      LabelsHaveNoSpace([], b);
    }
  }

  /** Lengths are counted in UTF-8 bytes. */
  lemma Utf8Widths(s: string, c: char)
    ensures Utf8Bytes("") == 0
    ensures Utf8Bytes(s + [c]) == Utf8Bytes(s)
      + (if c as int < 0x80 then 1 else if c as int < 0x800 then 2 else if c as int < 0x1_0000 then 3 else 4)
  {
    assert (s + [c])[..|s|] == s;
  }

  /** The white space a name is trimmed of, by code point. */
  lemma SpacesAre(c: char)
    ensures IsSpace(c) <==>
      c as int in {0x9, 0xA, 0xB, 0xC, 0xD, 0x20, 0x85, 0xA0, 0x1680,
                   0x2000, 0x2001, 0x2002, 0x2003, 0x2004, 0x2005, 0x2006, 0x2007, 0x2008, 0x2009, 0x200A,
                   0x2028, 0x2029, 0x202F, 0x205F, 0x3000}
  {
  }

  // ---------------------------------------------------------------- what a normalised name is

  predicate AllSpace(s: string) { forall i | 0 <= i < |s| :: IsSpace(s[i]) }
  predicate AllDots(s: string) { forall i | 0 <= i < |s| :: s[i] == '.' }

  /** The part of a name that is kept: no space in front, no dot behind, no space behind unless dots hid it. */
  ghost predicate IsCore(s: string, before: string, core: string, dots: string, after: string) {
    && s == before + core + dots + after
    && AllSpace(before) && AllDots(dots) && AllSpace(after)
    && (core != [] ==> !IsSpace(core[0]) && core[|core| - 1] != '.')
    && (core != [] && dots == [] ==> !IsSpace(core[|core| - 1]))
  }

  lemma {:induction false} TrimStartCuts(s: string)
    ensures exists before :: AllSpace(before) && s == before + TrimStart(s)
  {
    if s != [] && IsSpace(s[0]) {
      TrimStartCuts(s[1..]);
      var rest :| AllSpace(rest) && s[1..] == rest + TrimStart(s[1..]);
      var before := [s[0]] + rest;
      assert AllSpace(before) && s == before + TrimStart(s);
    } else {
      assert s == [] + TrimStart(s) && AllSpace([]);
    }
  }

  lemma {:induction false} TrimEndCuts(s: string)
    ensures exists after :: AllSpace(after) && s == TrimEnd(s) + after
    decreases |s|
  {
    if EndsInSpace(s) {
      var front := s[..|s| - 1];
      TrimEndCuts(front);
      var rest :| AllSpace(rest) && front == TrimEnd(front) + rest;
      var after := rest + [s[|s| - 1]];
      assert AllSpace(after) && s == TrimEnd(s) + after;
    } else {
      assert s == TrimEnd(s) + [] && AllSpace([]);
    }
  }

  lemma {:induction false} TrimDotsCuts(s: string)
    ensures exists dots :: AllDots(dots) && s == TrimDots(s) + dots
    decreases |s|
  {
    if s != [] && s[|s| - 1] == '.' {
      var front := s[..|s| - 1];
      TrimDotsCuts(front);
      var rest :| AllDots(rest) && front == TrimDots(front) + rest;
      var dots := rest + ['.'];
      assert AllDots(dots) && s == TrimDots(s) + dots;
    } else {
      assert s == TrimDots(s) + [] && AllDots([]);
    }
  }

  lemma HasACore(s: string)
    ensures exists before, dots, after :: IsCore(s, before, TrimDots(Trim(s)), dots, after)
  {
    hide TrimStart, TrimEnd, TrimDots;
    var start := TrimStart(s);
    var trimmed := TrimEnd(start);
    var core := TrimDots(trimmed);
    TrimStartCuts(s);
    TrimEndCuts(start);
    TrimDotsCuts(trimmed);
    var before :| AllSpace(before) && s == before + start;
    var after :| AllSpace(after) && start == trimmed + after;
    var dots :| AllDots(dots) && trimmed == core + dots;
    assert s == before + core + dots + after;
    CoreIsTight(s, dots);
    assert IsCore(s, before, core, dots, after);
  }

  lemma CoreIsTight(s: string, dots: string)
    requires Trim(s) == TrimDots(Trim(s)) + dots
    ensures var core := TrimDots(Trim(s));
      core != [] ==> !IsSpace(core[0]) && core[|core| - 1] != '.' && (dots == [] ==> !IsSpace(core[|core| - 1]))
  {
    hide TrimStart, TrimEnd, TrimDots;
    var start := TrimStart(s);
    TrimStartStops(s);
    TrimEndKeepsFront(start);
    TrimDotsKeepsFront(Trim(s));
  }

  /** Folding lowers the case of `core`, letter by letter. */
  ghost predicate Lowered(core: string, n: string) {
    && |n| == |core|
    && forall i | 0 <= i < |core| :: n[i] == if 'A' <= core[i] <= 'Z' then core[i] - 'A' + 'a' else core[i]
  }

  /** Both normalisers lower the case of the core of the name, and drop the rest. */
  lemma FoldingKeepsTheCore(s: string)
    ensures exists core ::
      Lowered(core, Folded(s)) && exists before, dots, after :: IsCore(s, before, core, dots, after)
  {
    HasACore(s);
    assert Lowered(TrimDots(Trim(s)), Folded(s));
  }

  /** The table takes every folded name that is neither empty nor too long. */
  lemma TableNames(s: string)
    ensures FakeDnsName(s) ==
      if |Folded(s)| >= 1 && Utf8Bytes(Folded(s)) <= 253 then Some(Folded(s)) else None
  {
  }

  /** `s[i..j]` is everything between two dots, or a dot and an end. */
  predicate IsLabel(s: string, i: nat, j: nat) {
    && i <= j <= |s|
    && (i == 0 || s[i - 1] == '.') && (j == |s| || s[j] == '.')
    && forall k | i <= k < j :: s[k] != '.'
  }

  ghost predicate LabelsAreValid(s: string, from: nat) {
    forall i: nat, j: nat | from <= i && IsLabel(s, i, j) :: ValidLabel(s[i..j])
  }

  /** Reading label by label checks exactly the labels between the dots. */
  lemma {:induction false} LabelsFrom(s: string, i: nat, k: nat)
    requires i <= k <= |s| && (i == 0 || s[i - 1] == '.') && forall m | i <= m < k :: s[m] != '.'
    ensures ValidLabels(s[i..k], s[k..]) <==> LabelsAreValid(s, i)
    decreases |s| - k
  {
    hide ValidLabel;
    if k == |s| {
      assert IsLabel(s, i, k);
      forall m: nat, j: nat | i <= m && IsLabel(s, m, j) ensures m == i && j == k {
      }
    } else if s[k] == '.' {
      assert s[k..][0] == '.' && s[k..][1..] == s[k + 1..] && s[k + 1..k + 1] == [];
      LabelsFrom(s, k + 1, k + 1);
      assert IsLabel(s, i, k);
      forall m: nat, j: nat | i <= m && IsLabel(s, m, j) ensures (m == i && j == k) || k + 1 <= m {
        assert !(m == i && j > k);
      }
    } else {
      assert s[k..][0] == s[k] && s[k..][1..] == s[k + 1..] && s[i..k] + [s[k]] == s[i..k + 1];
      LabelsFrom(s, i, k + 1);
    }
  }

  /** Routing accepts exactly the folded names all of whose labels are hostname labels. */
  lemma RoutingNames(s: string)
    ensures var n := Folded(s);
      RoutingName(s) ==
        if |n| >= 1 && Utf8Bytes(n) <= 253 && LabelsAreValid(n, 0) then Some(n) else None
    ensures forall part :: ValidLabel(part) <==>
      && 1 <= |part| && Utf8Bytes(part) <= 63 && part[0] != '-' && part[|part| - 1] != '-'
      && forall i | 0 <= i < |part| ::
           'a' <= part[i] <= 'z' || 'A' <= part[i] <= 'Z' || '0' <= part[i] <= '9' || part[i] == '-'
  {
    var n := Folded(s);
    LabelsFrom(n, 0, 0);
    assert n[0..0] == [] && n[0..] == n;
  }
}
