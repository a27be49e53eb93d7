/** The problem-statement patch of the hint copy: hint ids written in decimal,
    and the regular expression `(\{[^}]*)(<old id>)([^}]*})` replaced by
    `$1<new id>$3` throughout a string. */
module HintIdPatch {
  import opened Wrappers

  // ---------------------------------------------------------------------------
  // Decimal ids (`Long.toString`)
  // ---------------------------------------------------------------------------

  predicate IsDigit(c: char) {
    '0' <= c <= '9'
  }

  function DigitChar(d: nat): (c: char)
    requires d < 10
    ensures IsDigit(c)
  {
    ('0' as int + d) as char
  }

  function DigitValue(c: char): nat {
    if IsDigit(c) then c as int - '0' as int else 0
  }

  /** The decimal digits of `n`, most significant first, without leading zeros. */
  function Digits(n: nat): (s: string)
    ensures |s| >= 1 && forall i :: 0 <= i < |s| ==> IsDigit(s[i])
  {
    if n < 10 then [DigitChar(n)] else Digits(n / 10) + [DigitChar(n % 10)]
  }

  /** Reads a string of digits back as a number. */
  function ParseDigits(s: string): nat {
    if s == [] then 0 else ParseDigits(s[..|s| - 1]) * 10 + DigitValue(s[|s| - 1])
  }

  lemma {:induction false} DigitsRoundTrip(n: nat)
    ensures ParseDigits(Digits(n)) == n
  {
    if n >= 10 {
      DigitsRoundTrip(n / 10);
      var s := Digits(n / 10) + [DigitChar(n % 10)];
      assert s[..|s| - 1] == Digits(n / 10);
    }
  }

  /** An id as `Long.toString` writes it: a minus sign for negative ids, then
      the digits. It never holds a brace. */
  function IdString(id: int): (s: string)
    ensures s != [] && '{' !in s && '}' !in s && ',' !in s
  {
    if id < 0 then "-" + Digits(-id) else Digits(id)
  }

  function ParseId(s: string): int {
    if s != [] && s[0] == '-' then -(ParseDigits(s[1..]) as int) else ParseDigits(s)
  }

  /** Reading an id's string gives the id back, so distinct ids are written
      differently. */
  lemma IdStringRoundTrip(id: int)
    ensures ParseId(IdString(id)) == id
  {
    if id < 0 {
      DigitsRoundTrip(-id);
      assert ("-" + Digits(-id))[1..] == Digits(-id);
    } else {
      DigitsRoundTrip(id);
      assert IsDigit(Digits(id)[0]);
    }
  }

  lemma IdStringInjective(a: int, b: int)
    ensures IdString(a) == IdString(b) ==> a == b
  {
    IdStringRoundTrip(a);
    IdStringRoundTrip(b);
  }

  // ---------------------------------------------------------------------------
  // The regular expression
  // ---------------------------------------------------------------------------

  /** The index of the first `}` in `s`, where a group opened before it closes. */
  function FirstClose(s: string): (q: Option<nat>)
    ensures q.Some? ==> q.value < |s|
  {
    if s == [] then None
    else if s[0] == '}' then Some(0)
    else
      match FirstClose(s[1..])
      case None => None
      case Some(q) => Some(q + 1)
  }

  /** `FirstClose` finds the first `}`, and finds none only when there is none. */
  lemma {:induction false} FirstCloseSpec(s: string)
    ensures FirstClose(s).Some? ==> var q := FirstClose(s).value; s[q] == '}' && '}' !in s[..q]
    ensures FirstClose(s).None? ==> '}' !in s
  {
    if s != [] && s[0] != '}' {
      FirstCloseSpec(s[1..]);
      if FirstClose(s[1..]).Some? {
        var q := FirstClose(s[1..]).value;
        assert s[..q + 1] == [s[0]] + s[1..][..q];
      } else {
        assert s == [s[0]] + s[1..];
      }
    }
  }

  /** `pat` occurs in `t` starting at index `j`. */
  predicate OccursAt(t: string, pat: string, j: int) {
    0 <= j && j + |pat| <= |t| && t[j..j + |pat|] == pat
  }

  function LastAtOrBefore(t: string, pat: string, n: int): (j: Option<nat>)
    requires n <= |t|
    ensures j.Some? ==> j.value <= n && j.value + |pat| <= |t|
    decreases n + 1
  {
    if n < 0 then None
    else if OccursAt(t, pat, n) then Some(n)
    else LastAtOrBefore(t, pat, n - 1)
  }

  lemma {:induction false} LastAtOrBeforeSpec(t: string, pat: string, n: int)
    requires n <= |t|
    ensures var j := LastAtOrBefore(t, pat, n);
      && (j.Some? ==> OccursAt(t, pat, j.value) && forall k :: j.value < k <= n ==> !OccursAt(t, pat, k))
      && (j.None? ==> forall k :: k <= n ==> !OccursAt(t, pat, k))
    decreases n + 1
  {
    if n >= 0 && !OccursAt(t, pat, n) {
      LastAtOrBeforeSpec(t, pat, n - 1);
    }
  }

  /** Where the greedy `[^}]*` in front of the id leaves the match: the start of
      the last occurrence of `pat` in `t`. */
  function LastOccurrence(t: string, pat: string): (j: Option<nat>)
    ensures j.Some? ==> j.value + |pat| <= |t|
  {
    LastAtOrBefore(t, pat, |t|)
  }

  /** `LastOccurrence` finds the last occurrence, and finds none only when
      there is none. */
  lemma LastOccurrenceSpec(t: string, pat: string)
    ensures var j := LastOccurrence(t, pat);
      && (j.Some? ==> OccursAt(t, pat, j.value) && forall k :: j.value < k ==> !OccursAt(t, pat, k))
      && (j.None? ==> forall k :: !OccursAt(t, pat, k))
  {
    LastAtOrBeforeSpec(t, pat, |t|);
  }

  /** Where a match lies: the id occupies `[start, end)` and the group's `}`
      is at `close`. */
  datatype Span = Span(start: nat, end: nat, close: nat)

  /** A match of the pattern at the start of `s`: a group opens at index 0 and
      closes at the first `}`, and the match takes the last occurrence of
      `oldId` inside it. */
  function GroupMatch(s: string, oldId: string): (m: Option<Span>)
    ensures m.Some? ==> 1 <= m.value.start && m.value.end == m.value.start + |oldId|
                        && m.value.end <= m.value.close < |s|
    ensures m.Some? ==> s[0] == '{' && FirstClose(s) == Some(m.value.close)
  {
    if s != [] && s[0] == '{' && FirstClose(s).Some? && LastOccurrence(s[1..FirstClose(s).value], oldId).Some? then
      var start := 1 + LastOccurrence(s[1..FirstClose(s).value], oldId).value;
      Some(Span(start, start + |oldId|, FirstClose(s).value))
    else None
  }

  /** `s.replaceAll("(\\{[^}]*)(" + oldId + ")([^}]*})", "$1" + newId + "$3")`.
      A match starts at the leftmost `{` whose group, up to the first `}` after
      it, holds `oldId`; the last occurrence there is replaced and the search
      goes on after that `}`. Elsewhere the text is copied. The digits of the new
      id after `$1` are literal, as the pattern has only three groups. */
  function ReplaceGroups(s: string, oldId: string, newId: string): string
    decreases |s|
  {
    if s == [] then []
    else if GroupMatch(s, oldId).Some? then
      var m := GroupMatch(s, oldId).value;
      s[..m.start] + newId + s[m.end..m.close + 1] + ReplaceGroups(s[m.close + 1..], oldId, newId)
    else [s[0]] + ReplaceGroups(s[1..], oldId, newId)
  }

  /** The text outside the groups: every `{` with a `}` after it is dropped up to
      and including that `}`. */
  function OutsideGroups(s: string): string
    decreases |s|
  {
    if s == [] then []
    else if s[0] == '{' && FirstClose(s).Some? then OutsideGroups(s[FirstClose(s).value + 1..])
    else [s[0]] + OutsideGroups(s[1..])
  }

  /** A string without a `{` has no group to rewrite. */
  lemma {:induction false} NoOpenUnchanged(s: string, oldId: string, newId: string)
    requires '{' !in s
    ensures ReplaceGroups(s, oldId, newId) == s
  {
    if s != [] {
      NoOpenUnchanged(s[1..], oldId, newId);
    }
  }

  /** Nor has a string without a `}`. */
  lemma {:induction false} NoCloseUnchanged(s: string, oldId: string, newId: string)
    requires '}' !in s
    ensures ReplaceGroups(s, oldId, newId) == s
  {
    if s != [] {
      FirstCloseSpec(s);
      NoCloseUnchanged(s[1..], oldId, newId);
    }
  }

  lemma {:induction false} FirstCloseAt(s: string, p: nat)
    requires p < |s| && s[p] == '}' && '}' !in s[..p]
    ensures FirstClose(s) == Some(p)
  {
    if p > 0 {
      assert s[..p][0] == s[0];
      var t := s[1..];
      assert s[..p] == [s[0]] + t[..p - 1];
      FirstCloseAt(t, p - 1);
    }
  }

  lemma OccursInSlice(t: string, pat: string, a: nat, b: nat, k: int)
    requires a <= b <= |t|
    ensures OccursAt(t[a..b], pat, k) ==> OccursAt(t, pat, a + k)
  {
    if OccursAt(t[a..b], pat, k) {
      var w := t[a..b][k..k + |pat|];
      forall i | 0 <= i < |pat| ensures t[a + k + i] == pat[i] {
        assert w[i] == t[a + k + i];
      }
      assert t[a + k..a + k + |pat|] == pat;
    }
  }

  /** No match starts in a stretch that runs up to a `}` without holding `oldId`. */
  lemma NoMatchBeforeClose(u: string, p: nat, oldId: string)
    requires p < |u| && u[p] == '}' && '}' !in u[..p]
    requires forall k :: !OccursAt(u[..p], oldId, k)
    ensures GroupMatch(u, oldId).None?
  {
    if u[0] == '{' {
      FirstCloseAt(u, p);
      LastOccurrenceSpec(u[1..p], oldId);
      assert u[..p][1..p] == u[1..p];
      forall k ensures !OccursAt(u[1..p], oldId, k) {
        OccursInSlice(u[..p], oldId, 1, p, k);
      }
    }
  }

  lemma Regroup(a: string, b: string, c: string)
    ensures a + (b + c) == (a + b) + c
  {
  }

  lemma ConsSlices(u: string, p: nat)
    requires 0 < p < |u|
    ensures u[..p + 1] == [u[0]] + u[1..][..p]
    ensures u[..p] == [u[0]] + u[1..][..p - 1]
    ensures u[..p][1..p] == u[1..][..p - 1]
    ensures u[1..][p..] == u[p + 1..]
  {
  }

  lemma NoOccurrenceInTail(u: string, p: nat, oldId: string, w: string)
    requires 0 < p <= |u| && w == u[1..][..p - 1]
    requires forall k :: !OccursAt(u[..p], oldId, k)
    ensures forall k :: !OccursAt(w, oldId, k)
  {
    assert u[..p][1..p] == w;
    forall k ensures !OccursAt(w, oldId, k) {
      OccursInSlice(u[..p], oldId, 1, p, k);
    }
  }

  /** Up to a `}` at `p`, a stretch without `oldId` is copied unchanged, whatever
      `{` it holds. */
  lemma {:induction false} UntouchedPrefix(u: string, p: nat, oldId: string, newId: string)
    requires p < |u| && u[p] == '}' && '}' !in u[..p]
    requires forall k :: !OccursAt(u[..p], oldId, k)
    ensures ReplaceGroups(u, oldId, newId) == u[..p + 1] + ReplaceGroups(u[p + 1..], oldId, newId)
    decreases p
  {
    NoMatchBeforeClose(u, p, oldId);
    var v := u[1..];
    ReplaceGroupsAtNoMatch(u, oldId, newId);
    if p == 0 {
      assert u[..1] == [u[0]];
    } else {
      ConsSlices(u, p);
      NoOccurrenceInTail(u, p, oldId, v[..p - 1]);
      UntouchedPrefix(v, p - 1, oldId, newId);
    }
  }

  /** A group `{a oldId b}` where `oldId` does not occur again after `a` is
      rewritten to `{a newId b}`: one occurrence, the last one, is replaced; the
      search then resumes after the group's `}`. */
  lemma ReplaceLastInGroup(a: string, b: string, rest: string, oldId: string, newId: string)
    requires '}' !in a + oldId + b
    requires forall k :: |a| < k ==> !OccursAt(a + oldId + b, oldId, k)
    ensures ReplaceGroups(['{'] + a + oldId + b + ['}'] + rest, oldId, newId)
         == ['{'] + a + newId + b + ['}'] + ReplaceGroups(rest, oldId, newId)
  {
    var g := a + oldId + b;
    var s := ['{'] + a + oldId + b + ['}'] + rest;
    var q := |g| + 1;
    assert s[..q] == ['{'] + g;
    FirstCloseAt(s, q);
    assert s[1..q] == g;
    assert g[|a|..|a| + |oldId|] == oldId;
    assert OccursAt(g, oldId, |a|);
    LastOccurrenceSpec(g, oldId);
    var m := Span(1 + |a|, 1 + |a| + |oldId|, q);
    assert GroupMatch(s, oldId) == Some(m);
    assert s[..m.start] == ['{'] + a;
    assert s[m.end..m.close + 1] == b + ['}'];
    assert s[m.close + 1..] == rest;
    ReplaceGroupsAtMatch(s, oldId, newId, m);
  }

  /** One step of the rewrite where a match starts. */
  lemma ReplaceGroupsAtMatch(s: string, oldId: string, newId: string, m: Span)
    requires s != [] && GroupMatch(s, oldId) == Some(m)
    ensures ReplaceGroups(s, oldId, newId)
         == s[..m.start] + newId + s[m.end..m.close + 1] + ReplaceGroups(s[m.close + 1..], oldId, newId)
  {
    var r := ReplaceGroups(s[m.close + 1..], oldId, newId);
    assert ReplaceGroups(s, oldId, newId) == s[..m.start] + newId + s[m.end..m.close + 1] + r;
  }

  /** One step of the rewrite where no match starts. */
  lemma ReplaceGroupsAtNoMatch(s: string, oldId: string, newId: string)
    requires s != [] && GroupMatch(s, oldId).None?
    ensures ReplaceGroups(s, oldId, newId) == [s[0]] + ReplaceGroups(s[1..], oldId, newId)
  {
  }

  lemma NoOccurrenceInGroup(s: string, oldId: string, q: nat, w: string)
    requires s != [] && s[0] == '{' && FirstClose(s) == Some(q) && GroupMatch(s, oldId).None?
    requires w == s[1..][..q - 1]
    ensures forall k :: !OccursAt(w, oldId, k)
  {
    assert w == s[1..q];
    LastOccurrenceSpec(s[1..q], oldId);
  }

  /** A group without the id is copied whole. */
  lemma UntouchedGroup(s: string, oldId: string, newId: string, q: nat)
    requires s != [] && s[0] == '{' && FirstClose(s) == Some(q) && GroupMatch(s, oldId).None?
    ensures ReplaceGroups(s, oldId, newId) == s[..q + 1] + ReplaceGroups(s[q + 1..], oldId, newId)
  {
    var u := s[1..];
    FirstCloseSpec(s);
    ReplaceGroupsAtNoMatch(s, oldId, newId);
    ConsSlices(s, q);
    NoOccurrenceInGroup(s, oldId, q, u[..q - 1]);
    UntouchedPrefix(u, q - 1, oldId, newId);
    Regroup([s[0]], u[..q], ReplaceGroups(s[q + 1..], oldId, newId));
  }

  /** `g` is one whole group: a `{`, then no `}` until its last character. */
  predicate IsGroup(g: string) {
    |g| >= 2 && g[0] == '{' && g[|g| - 1] == '}' && '}' !in g[..|g| - 1]
  }

  lemma OutsideSkipsGroup(g: string, rest: string)
    requires IsGroup(g)
    ensures OutsideGroups(g + rest) == OutsideGroups(rest)
  {
    assert (g + rest)[..|g| - 1] == g[..|g| - 1];
    FirstCloseAt(g + rest, |g| - 1);
    assert (g + rest)[|g|..] == rest;
  }

  lemma OutsideAtGroup(s: string, q: nat)
    requires s != [] && s[0] == '{' && FirstClose(s) == Some(q)
    ensures OutsideGroups(s) == OutsideGroups(s[q + 1..])
  {
  }

  lemma ClosedGroup(s: string, q: nat)
    requires s != [] && s[0] == '{' && FirstClose(s) == Some(q)
    ensures IsGroup(s[..q + 1])
  {
    FirstCloseSpec(s);
    assert s[..q + 1][..q] == s[..q];
  }

  /** The group a match spans, before and after the id in it is replaced. */
  lemma MatchedGroups(s: string, newId: string, m: Span)
    requires '}' !in newId
    requires 1 <= m.start <= m.end <= m.close < |s| && s[0] == '{' && s[m.close] == '}' && '}' !in s[..m.close]
    ensures IsGroup(s[..m.close + 1])
    ensures IsGroup(s[..m.start] + newId + s[m.end..m.close + 1])
  {
    assert s[..m.close + 1][..m.close] == s[..m.close];
    var g := s[..m.start] + newId + s[m.end..m.close + 1];
    assert s[..m.close] == s[..m.start] + s[m.start..m.end] + s[m.end..m.close];
    assert g[..|g| - 1] == s[..m.start] + newId + s[m.end..m.close];
  }

  /** Rewriting ids never changes the text outside the groups, as long as the
      new id holds no `}`. */
  lemma {:induction false} ReplaceGroupsKeepsOutside(s: string, oldId: string, newId: string)
    requires '}' !in newId
    ensures OutsideGroups(ReplaceGroups(s, oldId, newId)) == OutsideGroups(s)
    decreases |s|
  {
    if s != [] {
      match GroupMatch(s, oldId)
      case Some(m) =>
        var g := s[..m.start] + newId + s[m.end..m.close + 1];
        var rest := ReplaceGroups(s[m.close + 1..], oldId, newId);
        ReplaceGroupsAtMatch(s, oldId, newId, m);
        FirstCloseSpec(s);
        ReplaceGroupsKeepsOutside(s[m.close + 1..], oldId, newId);
        MatchedGroups(s, newId, m);
        OutsideSkipsGroup(g, rest);
        OutsideAtGroup(s, m.close);
      case None =>
        if s[0] == '{' && FirstClose(s).Some? {
          var q := FirstClose(s).value;
          UntouchedGroup(s, oldId, newId, q);
          ReplaceGroupsKeepsOutside(s[q + 1..], oldId, newId);
          ClosedGroup(s, q);
          OutsideSkipsGroup(s[..q + 1], ReplaceGroups(s[q + 1..], oldId, newId));
          OutsideAtGroup(s, q);
        } else if s[0] == '{' {
          FirstCloseSpec(s);
          NoCloseUnchanged(s, oldId, newId);
        } else {
          ReplaceGroupsAtNoMatch(s, oldId, newId);
          ReplaceGroupsKeepsOutside(s[1..], oldId, newId);
        }
    }
  }

  /** The greedy match rewrites the last occurrence of an id in a group, even
      when it is part of a longer id: with hints 1 and 11 listed, moving id 1 to
      7 gives `{1,17}`. */
  lemma ReplaceMatchesInsideLongerIds()
    ensures ReplaceGroups("{1,11}", "1", "7") == "{1,17}"
  {
    ReplaceLastInGroup("1,1", "", "", "1", "7");
    assert ['{'] + "1,1" + "1" + "" + ['}'] + "" == "{1,11}";
    assert ['{'] + "1,1" + "7" + "" + ['}'] + "" == "{1,17}";
  }

  // ---------------------------------------------------------------------------
  // The patch loop
  // ---------------------------------------------------------------------------

  /** The statement after replacing the ids of `order`, in that order, by the
      ids `mapping` gives them. */
  function PatchStatement(statement: string, order: seq<int>, mapping: map<int, int>): string
    requires forall i :: 0 <= i < |order| ==> order[i] in mapping
  {
    if order == [] then statement
    else
      var key := order[|order| - 1];
      ReplaceGroups(PatchStatement(statement, order[..|order| - 1], mapping), IdString(key), IdString(mapping[key]))
  }

  /** However many ids are rewritten, in whatever order, the text outside the
      groups stays as it was. */
  lemma {:induction false} PatchKeepsOutside(statement: string, order: seq<int>, mapping: map<int, int>)
    requires forall i :: 0 <= i < |order| ==> order[i] in mapping
    ensures OutsideGroups(PatchStatement(statement, order, mapping)) == OutsideGroups(statement)
  {
    if order != [] {
      var key := order[|order| - 1];
      PatchKeepsOutside(statement, order[..|order| - 1], mapping);
      ReplaceGroupsKeepsOutside(PatchStatement(statement, order[..|order| - 1], mapping), IdString(key), IdString(mapping[key]));
    }
  }

  /** A statement without `{` comes out unchanged. */
  lemma {:induction false} PatchWithoutGroupsUnchanged(statement: string, order: seq<int>, mapping: map<int, int>)
    requires forall i :: 0 <= i < |order| ==> order[i] in mapping
    requires '{' !in statement
    ensures PatchStatement(statement, order, mapping) == statement
  {
    if order != [] {
      var key := order[|order| - 1];
      PatchWithoutGroupsUnchanged(statement, order[..|order| - 1], mapping);
      NoOpenUnchanged(statement, IdString(key), IdString(mapping[key]));
    }
  }

  /** Rewritten one id at a time, an id the patch has just written can be
      rewritten again: when the new id of `a` ends with the old id of `b` and
      `a` is taken first, the group `{a}` ends up holding neither new id. */
  lemma ChainedReplacement(a: int, b: int, mapping: map<int, int>, prefix: string)
    requires a in mapping && b in mapping
    requires IdString(mapping[a]) == prefix + IdString(b)
    ensures PatchStatement("{" + IdString(a) + "}", [a, b], mapping) == "{" + prefix + IdString(mapping[b]) + "}"
  {
    var oldA, newA, oldB := IdString(a), IdString(mapping[a]), IdString(b);
    var s := "{" + oldA + "}";
    assert [a, b][..1] == [a] && [a][..0] == [];
    assert PatchStatement(s, [a], mapping) == ReplaceGroups(s, oldA, newA);
    ReplaceOneInGroup("", oldA, newA);
    assert "{" + "" + oldA == "{" + oldA;
    assert "{" + "" + newA == "{" + newA;
    assert "{" + newA == "{" + prefix + oldB;
    ReplaceOneInGroup(prefix, oldB, IdString(mapping[b]));
  }

  /** With hints 1 and 2 moving to 12 and 13, and id 1 taken first, `{1}`
      becomes `{12}` and then `{113}`. */
  lemma ChainedReplacementExample()
    ensures PatchStatement("{1}", [1, 2], map[1 := 12, 2 := 13]) == "{113}"
  {
    SmallIdStrings();
    ChainedReplacement(1, 2, map[1 := 12, 2 := 13], "1");
    assert "{" + "1" + "}" == "{1}";
    assert "{" + "1" + "13" + "}" == "{113}";
  }

  lemma SmallIdStrings()
    ensures IdString(1) == "1" && IdString(2) == "2" && IdString(12) == "12" && IdString(13) == "13"
  {
  }

  /** `{a oldId}` becomes `{a newId}`. */
  lemma ReplaceOneInGroup(a: string, oldId: string, newId: string)
    requires '}' !in a + oldId
    ensures ReplaceGroups("{" + a + oldId + "}", oldId, newId) == "{" + a + newId + "}"
  {
    ReplaceLastInGroup(a, "", "", oldId, newId);
    assert ['{'] + a + oldId + "" + ['}'] + "" == "{" + a + oldId + "}";
    assert ['{'] + a + newId + "" + ['}'] + "" == "{" + a + newId + "}";
    NoOpenUnchanged("", oldId, newId);
  }

  // ---------------------------------------------------------------------------
  // Rewriting whole ids in one pass
  // ---------------------------------------------------------------------------

  /** The index of the first `,` in `s`, or `|s|` when there is none. */
  function FirstComma(s: string): (i: nat)
    ensures i <= |s| && ',' !in s[..i]
    ensures i < |s| ==> s[i] == ','
  {
    if s == [] then 0
    else if s[0] == ',' then 0
    else
      var j := FirstComma(s[1..]);
      assert s[..j + 1] == [s[0]] + s[1..][..j];
      j + 1
  }

  lemma FirstCommaUnique(s: string, i: nat)
    requires i <= |s| && ',' !in s[..i]
    requires i < |s| ==> s[i] == ','
    ensures FirstComma(s) == i
  {
  }

  lemma FirstCommaAfter(a: string, b: string)
    requires ',' !in a && b != [] && b[0] == ','
    ensures FirstComma(a + b) == |a|
  {
    assert (a + b)[..|a|] == a;
    FirstCommaUnique(a + b, |a|);
  }

  /** One id of a group, rewritten when it is exactly the string of an old
      id; any other text is kept. */
  function RewriteId(t: string, mapping: map<int, int>): (r: string)
    ensures '}' !in t ==> '}' !in r
  {
    var k := ParseId(t);
    if IdString(k) == t && k in mapping then IdString(mapping[k]) else t
  }

  /** The `,`-separated ids of a group's text, each rewritten on its own. */
  function RewriteTokens(c: string, mapping: map<int, int>): (r: string)
    ensures '}' !in c ==> '}' !in r
    decreases |c|
  {
    var i := FirstComma(c);
    if i == |c| then RewriteId(c, mapping)
    else
      assert '}' !in c ==> '}' !in c[..i] && '}' !in c[i + 1..] by {
        assert forall x :: x in c[..i] ==> x in c;
        assert forall x :: x in c[i + 1..] ==> x in c;
      }
      RewriteId(c[..i], mapping) + [','] + RewriteTokens(c[i + 1..], mapping)
  }

  /** The statement with every group's ids rewritten by `mapping` in one pass;
      the text outside the groups is copied. */
  function PatchIdsOnce(s: string, mapping: map<int, int>): string
    decreases |s|
  {
    if s == [] then []
    else if s[0] == '{' && FirstClose(s).Some? then
      var q := FirstClose(s).value;
      FirstCloseSpec(s);
      ['{'] + RewriteTokens(s[1..q], mapping) + ['}'] + PatchIdsOnce(s[q + 1..], mapping)
    else [s[0]] + PatchIdsOnce(s[1..], mapping)
  }

  /** A list of ids as a group writes them: separated by `,`. */
  function IdList(ids: seq<int>): (r: string)
    ensures '{' !in r && '}' !in r
  {
    if |ids| == 0 then []
    else if |ids| == 1 then IdString(ids[0])
    else IdString(ids[0]) + [','] + IdList(ids[1..])
  }

  /** Each id its new id, when it has one. */
  function RewriteIds(ids: seq<int>, mapping: map<int, int>): seq<int> {
    seq(|ids|, i requires 0 <= i < |ids| => if ids[i] in mapping then mapping[ids[i]] else ids[i])
  }

  /** An old id's string is rewritten to its new id's, any other id's kept. */
  lemma RewriteIdOfId(id: int, mapping: map<int, int>)
    ensures RewriteId(IdString(id), mapping) == IdString(if id in mapping then mapping[id] else id)
  {
    IdStringRoundTrip(id);
  }

  /** The ids before and after the first `,` are rewritten apart. */
  lemma RewriteTokensCons(head: string, tail: string, mapping: map<int, int>)
    requires ',' !in head
    ensures RewriteTokens(head + [','] + tail, mapping) == RewriteId(head, mapping) + [','] + RewriteTokens(tail, mapping)
  {
    var c := head + [','] + tail;
    FirstCommaAfter(head, [','] + tail);
    assert c == head + ([','] + tail);
    assert c[..|head|] == head && c[|head| + 1..] == tail;
  }

  lemma RewriteTokensOfNothing(mapping: map<int, int>)
    ensures RewriteTokens([], mapping) == []
  {
    assert FirstComma([]) == 0;
    assert IdString(ParseId([])) != [];
  }

  lemma RewriteTokensOfOne(ids: seq<int>, mapping: map<int, int>)
    requires |ids| == 1
    ensures RewriteTokens(IdList(ids), mapping) == IdList(RewriteIds(ids, mapping))
  {
    var t := IdString(ids[0]);
    FirstCommaUnique(t, |t|);
    RewriteIdOfId(ids[0], mapping);
    assert IdList(ids) == t;
    assert RewriteTokens(t, mapping) == RewriteId(t, mapping);
  }

  /** Rewriting a list of ids rewrites every id in it. */
  lemma {:induction false} RewriteTokensOfIdList(ids: seq<int>, mapping: map<int, int>)
    ensures RewriteTokens(IdList(ids), mapping) == IdList(RewriteIds(ids, mapping))
    decreases |ids|
  {
    if |ids| == 0 {
      RewriteTokensOfNothing(mapping);
    } else if |ids| == 1 {
      RewriteTokensOfOne(ids, mapping);
    } else {
      RewriteTokensCons(IdString(ids[0]), IdList(ids[1..]), mapping);
      RewriteIdOfId(ids[0], mapping);
      RewriteTokensOfIdList(ids[1..], mapping);
      assert RewriteIds(ids, mapping)[1..] == RewriteIds(ids[1..], mapping);
    }
  }

  /** A group listing ids comes out of the one-pass rewrite listing each of
      them replaced by its new id, ids without one kept; the rewrite goes on
      after the group's `}`. */
  lemma PatchIdsOnceGroup(ids: seq<int>, rest: string, mapping: map<int, int>)
    ensures PatchIdsOnce(['{'] + IdList(ids) + ['}'] + rest, mapping)
         == ['{'] + IdList(RewriteIds(ids, mapping)) + ['}'] + PatchIdsOnce(rest, mapping)
  {
    var c := IdList(ids);
    var s := ['{'] + c + ['}'] + rest;
    var q := |c| + 1;
    assert s[..q] == ['{'] + c;
    FirstCloseAt(s, q);
    assert s[1..q] == c && s[q + 1..] == rest;
    RewriteTokensOfIdList(ids, mapping);
  }

  /** Rewriting whole ids in one pass, `{1}` with hints 1 and 2 moving to 12
      and 13 becomes `{12}`. */
  lemma OnePassExample()
    ensures PatchIdsOnce("{1}", map[1 := 12, 2 := 13]) == "{12}"
  {
    var mapping := map[1 := 12, 2 := 13];
    PatchIdsOnceGroup([1], "", mapping);
    assert IdString(1) == "1" && IdString(12) == "12";
    assert IdList([1]) == "1" && IdList([12]) == "12";
    assert RewriteIds([1], mapping) == [12];
    assert ['{'] + "1" + ['}'] + "" == "{1}";
    assert ['{'] + "12" + ['}'] + "" == "{12}";
  }

  /** The one-pass rewrite never changes the text outside the groups. */
  lemma {:induction false} PatchIdsOnceKeepsOutside(s: string, mapping: map<int, int>)
    ensures OutsideGroups(PatchIdsOnce(s, mapping)) == OutsideGroups(s)
    decreases |s|
  {
    if s != [] {
      if s[0] == '{' && FirstClose(s).Some? {
        var q := FirstClose(s).value;
        var g := PatchIdsOnceAtGroup(s, q, mapping);
        PatchIdsOnceKeepsOutside(s[q + 1..], mapping);
        OutsideSkipsGroup(g, PatchIdsOnce(s[q + 1..], mapping));
        OutsideAtGroup(s, q);
      } else if s[0] == '{' {
        FirstCloseSpec(s);
        PatchIdsOnceWithoutClose(s, mapping);
      } else {
        var x := PatchIdsOnce(s[1..], mapping);
        PatchIdsOnceKeepsOutside(s[1..], mapping);
        assert ([s[0]] + x)[1..] == x;
      }
    }
  }

  /** Where a group opens, the one-pass rewrite gives a whole group `g`,
      then goes on after the group's `}`. */
  lemma PatchIdsOnceAtGroup(s: string, q: nat, mapping: map<int, int>) returns (g: string)
    requires s != [] && s[0] == '{' && FirstClose(s) == Some(q)
    ensures IsGroup(g) && PatchIdsOnce(s, mapping) == g + PatchIdsOnce(s[q + 1..], mapping)
  {
    FirstCloseSpec(s);
    assert '}' !in s[1..q] by {
      assert forall x :: x in s[1..q] ==> x in s[..q];
    }
    g := ['{'] + RewriteTokens(s[1..q], mapping) + ['}'];
    assert g[..|g| - 1] == ['{'] + RewriteTokens(s[1..q], mapping);
  }

  /** A string without a `}` holds no group, and comes out unchanged. */
  lemma {:induction false} PatchIdsOnceWithoutClose(s: string, mapping: map<int, int>)
    requires '}' !in s
    ensures PatchIdsOnce(s, mapping) == s
    decreases |s|
  {
    if s != [] {
      FirstCloseSpec(s);
      PatchIdsOnceWithoutClose(s[1..], mapping);
    }
  }
}
