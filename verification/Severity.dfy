/** severity.py: severity normalisation and the per-category minimum-severity gate. */
module Severity {
  datatype Level = LOW | MEDIUM | HIGH | VERY_HIGH | UNKNOWN

  /** A configured gate. UNKNOWN is not a legal threshold: it never leaves ParseMinimum. */
  datatype AnyMinimum = NO_FILTER | AtLeast(level: Level)
  type Minimum = m: AnyMinimum | m.AtLeast? ==> !m.level.UNKNOWN? witness NO_FILTER

  function LowerChar(c: char): char {
    if 'A' <= c <= 'Z' then c + 32 as char else c
  }

  function Lower(s: string): (r: string)
    ensures |r| == |s|
  {
    seq(|s|, i requires 0 <= i < |s| => LowerChar(s[i]))
  }

  predicate IsSpace(c: char) {
    c == ' ' || '\t' <= c <= '\r' || '\U{1C}' <= c <= '\U{1F}'
  }

  function StripLeft(s: string): string {
    if s != [] && IsSpace(s[0]) then StripLeft(s[1..]) else s
  }

  function StripRight(s: string): string {
    if s != [] && IsSpace(s[|s| - 1]) then StripRight(s[..|s| - 1]) else s
  }

  function Normalize(raw: string): Level {
    var key := Lower(StripRight(StripLeft(raw)));
    if key == "low" then LOW
    else if key == "medium" then MEDIUM
    else if key == "high" then HIGH
    else if key == "very_high" then VERY_HIGH
    else UNKNOWN
  }

  /** Position in the documented order; UNKNOWN has none and is never compared. */
  function Position(l: Level): nat
    requires !l.UNKNOWN?
  {
    match l
    case LOW => 0
    case MEDIUM => 1
    case HIGH => 2
    case VERY_HIGH => 3
  }

  predicate MeetsMinimum(level: Level, minimum: Minimum) {
    minimum.NO_FILTER? || level.UNKNOWN? || Position(level) >= Position(minimum.level)
  }

  function ParseMinimum(text: string): Minimum {
    if text == "LOW" then AtLeast(LOW)
    else if text == "MEDIUM" then AtLeast(MEDIUM)
    else if text == "HIGH" then AtLeast(HIGH)
    else if text == "VERY_HIGH" then AtLeast(VERY_HIGH)
    else NO_FILTER
  }

  /** A missing or unrecognised setting is no filter. */
  function EffectiveMinimum(table: map<string, string>, category: string): Minimum {
    if category in table then ParseMinimum(table[category]) else NO_FILTER
  }

  /** The gate m1 lets through everything m2 does, decided on the settings alone. */
  predicate AtMostAsStrict(m1: Minimum, m2: Minimum) {
    m1.NO_FILTER? || (m2.AtLeast? && Position(m1.level) <= Position(m2.level))
  }

  /** Comparing settings is exactly comparing what they admit. */
  lemma StricterGateAdmitsLess(m1: Minimum, m2: Minimum)
    ensures AtMostAsStrict(m1, m2) || m1 == AtLeast(LOW)
            <==> forall l: Level :: MeetsMinimum(l, m2) ==> MeetsMinimum(l, m1)
  {
    if m1.AtLeast? && m1 != AtLeast(LOW) {
      if m2.NO_FILTER? {
        assert MeetsMinimum(LOW, m2) && !MeetsMinimum(LOW, m1);
      } else if Position(m2.level) < Position(m1.level) {
        assert MeetsMinimum(m2.level, m2) && !MeetsMinimum(m2.level, m1);
      }
    }
  }

  // ---- the gate, on the texts themselves ----

  /** SEVERITY_ORDER, ascending. */
  const ORDER: seq<string> := ["LOW", "MEDIUM", "HIGH", "VERY_HIGH"]

  /** a is the upper-case letter b, or b itself, in either case. */
  predicate SameLetter(a: char, b: char) {
    a == b || ('A' <= b <= 'Z' && a as int == b as int + 32)
  }

  predicate SameWord(text: string, name: string) {
    |text| == |name| && forall i :: 0 <= i < |name| ==> SameLetter(text[i], name[i])
  }

  predicate Blank(s: string) {
    forall i :: 0 <= i < |s| ==> IsSpace(s[i])
  }

  /** The text is this name, in any case and with any white space around it. */
  ghost predicate Says(raw: string, name: string) {
    exists i, j :: 0 <= i <= j <= |raw| && Blank(raw[..i]) && Blank(raw[j..]) && SameWord(raw[i..j], name)
  }

  /** Not empty, with no white space at either end. */
  predicate Trimmed(s: string) {
    s != "" && !IsSpace(s[0]) && !IsSpace(s[|s| - 1])
  }

  lemma {:induction false} StripLeftOf(pre: string, rest: string)
    requires Blank(pre) && rest != "" && !IsSpace(rest[0])
    ensures StripLeft(pre + rest) == rest
  {
    if pre == "" {
      assert pre + rest == rest;
    } else {
      assert (pre + rest)[0] == pre[0] && (pre + rest)[1..] == pre[1..] + rest;
      StripLeftOf(pre[1..], rest);
    }
  }

  lemma {:induction false} StripRightOf(rest: string, post: string)
    requires Blank(post) && rest != "" && !IsSpace(rest[|rest| - 1])
    ensures StripRight(rest + post) == rest
  {
    if post == "" {
      assert rest + post == rest;
    } else {
      var s := rest + post;
      assert s[|s| - 1] == post[|post| - 1] && s[..|s| - 1] == rest + post[..|post| - 1];
      StripRightOf(rest, post[..|post| - 1]);
    }
  }

  lemma {:induction false} StripLeftLeaves(s: string) returns (i: nat)
    ensures i <= |s| && Blank(s[..i]) && StripLeft(s) == s[i..]
  {
    i := 0;
    if s != [] && IsSpace(s[0]) {
      var k := StripLeftLeaves(s[1..]);
      i := k + 1;
      assert s[..i] == [s[0]] + s[1..][..k] && s[i..] == s[1..][k..];
    }
  }

  lemma {:induction false} StripRightLeaves(s: string) returns (j: nat)
    ensures j <= |s| && Blank(s[j..]) && StripRight(s) == s[..j]
  {
    j := |s|;
    if s != [] && IsSpace(s[|s| - 1]) {
      var pre := s[..|s| - 1];
      j := StripRightLeaves(pre);
      assert s[j..] == pre[j..] + [s[|s| - 1]] && s[..j] == pre[..j];
    }
  }

  lemma LowerIsSameWord(text: string, name: string, lowered: string)
    requires |lowered| == |name| && forall i :: 0 <= i < |name| ==> lowered[i] == LowerChar(name[i])
    requires IsName(name)
    ensures Lower(text) == lowered <==> SameWord(text, name)
  {
    if Lower(text) == lowered {
      forall i | 0 <= i < |name| ensures SameLetter(text[i], name[i]) {
        assert Lower(text)[i] == lowered[i];
      }
    }
  }

  lemma StrippedIsMiddle(raw: string) returns (i: nat, j: nat)
    ensures i <= j <= |raw| && Blank(raw[..i]) && Blank(raw[j..]) && raw[i..j] == StripRight(StripLeft(raw))
  {
    hide StripLeft, StripRight, IsSpace;
    i := StripLeftLeaves(raw);
    var rest := raw[i..];
    var k := StripRightLeaves(rest);
    j := i + k;
    assert rest[..k] == raw[i..j] && rest[k..] == raw[j..];
  }

  lemma MiddleIsStripped(raw: string, i: nat, j: nat)
    requires i <= j <= |raw| && Blank(raw[..i]) && Blank(raw[j..]) && Trimmed(raw[i..j])
    ensures StripRight(StripLeft(raw)) == raw[i..j]
  {
    hide StripLeft, StripRight, Blank, IsSpace;
    var pre, mid, post := raw[..i], raw[i..j], raw[j..];
    assert raw == pre + (mid + post) && (mid + post)[0] == mid[0];
    StripLeftOf(pre, mid + post);
    StripRightOf(mid, post);
  }

  predicate IsName(name: string) {
    name != "" && forall i :: 0 <= i < |name| ==> 'A' <= name[i] <= 'Z' || name[i] == '_'
  }

  lemma NamesAreTrimmed(text: string, name: string)
    requires IsName(name) && SameWord(text, name)
    ensures Trimmed(text)
  {
    assert SameLetter(text[0], name[0]) && SameLetter(text[|text| - 1], name[|name| - 1]);
  }

  lemma StrippedSays(raw: string, name: string)
    requires IsName(name)
    ensures SameWord(StripRight(StripLeft(raw)), name) <==> Says(raw, name)
  {
    hide StripLeft, StripRight, Blank, SameWord, Trimmed, IsName;
    if SameWord(StripRight(StripLeft(raw)), name) {
      var i, j := StrippedIsMiddle(raw);
    }
    if Says(raw, name) {
      var i, j :| 0 <= i <= j <= |raw| && Blank(raw[..i]) && Blank(raw[j..]) && SameWord(raw[i..j], name);
      NamesAreTrimmed(raw[i..j], name);
      MiddleIsStripped(raw, i, j);
    }
  }

  /** Stripping and comparing in lower case is saying the name. */
  lemma NormalizedSays(raw: string, name: string, lowered: string)
    requires IsName(name) && |lowered| == |name|
    requires forall i :: 0 <= i < |name| ==> lowered[i] == LowerChar(name[i])
    ensures Lower(StripRight(StripLeft(raw))) == lowered <==> Says(raw, name)
  {
    hide Lower, StripLeft, StripRight, Says, SameWord;
    LowerIsSameWord(StripRight(StripLeft(raw)), name, lowered);
    StrippedSays(raw, name);
  }

  /** Each level is said by its own name in the documented order, and any other text is unknown. */
  lemma NormalizeSays(raw: string)
    ensures Normalize(raw) == LOW <==> Says(raw, ORDER[0])
    ensures Normalize(raw) == MEDIUM <==> Says(raw, ORDER[1])
    ensures Normalize(raw) == HIGH <==> Says(raw, ORDER[2])
    ensures Normalize(raw) == VERY_HIGH <==> Says(raw, ORDER[3])
  {
    hide Says, StripLeft, StripRight, Lower;
    NormalizedSays(raw, ORDER[0], "low");
    NormalizedSays(raw, ORDER[1], "medium");
    NormalizedSays(raw, ORDER[2], "high");
    NormalizedSays(raw, ORDER[3], "very_high");
  }

  /** The setting of this category is the i-th name of the order. */
  predicate SetTo(table: map<string, string>, category: string, i: int) {
    0 <= i < |ORDER| && category in table && table[category] == ORDER[i]
  }

  /** The severity is below that setting: it says an earlier name of the order. */
  ghost predicate BelowSetting(table: map<string, string>, category: string, severity: string) {
    exists i, j :: SetTo(table, category, i) && 0 <= j < i && Says(severity, ORDER[j])
  }

  lemma OrderIsDistinct()
    ensures forall i, j :: 0 <= i < j < |ORDER| ==> ORDER[i] != ORDER[j]
  {
    assert |ORDER[0]| == 3 && |ORDER[1]| == 6 && |ORDER[2]| == 4 && |ORDER[3]| == 9;
  }

  /** An alert is held back exactly when its category has one of the four names as its setting and the
      severity, in any case and padding, says an earlier one. Without such a setting, and for any
      other severity, it passes. */
  lemma GateExactly(table: map<string, string>, category: string, severity: string)
    ensures MeetsMinimum(Normalize(severity), EffectiveMinimum(table, category))
            <==> !BelowSetting(table, category, severity)
  {
    hide Normalize, Says;
    NormalizeSays(severity);
    OrderIsDistinct();
    var level, minimum := Normalize(severity), EffectiveMinimum(table, category);
    if minimum.AtLeast? {
      var i := Position(minimum.level);
      assert SetTo(table, category, i);
      if !level.UNKNOWN? {
        assert Says(severity, ORDER[Position(level)]);
      }
    } else {
      assert forall i :: !SetTo(table, category, i);
    }
  }
}
