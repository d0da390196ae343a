/** models.py: rendering a message template in one pass. */
module Templates {
  import opened Wrappers

  /** A piece of a template: one literal character, or a {NAME} token. */
  datatype Segment = Lit(c: char) | Token(name: string)

  predicate IsBrace(c: char) {
    c == '{' || c == '}'
  }

  predicate BraceFree(s: string) {
    forall i :: 0 <= i < |s| ==> !IsBrace(s[i])
  }

  /** The longest brace-free head of s. */
  function Head(s: string): (n: nat)
    ensures n <= |s| && BraceFree(s[..n])
    ensures n < |s| ==> IsBrace(s[n])
  {
    if s == [] || IsBrace(s[0]) then 0 else
      var n := Head(s[1..]) + 1;
      assert s[..n] == [s[0]] + s[1..][..n - 1];
      n
  }

  /** The regular expression \{([^{}]+)\} matches at the start of s, with this name. */
  function MatchAt(s: string): (r: Option<string>)
    ensures r.Some? ==> r.value != "" && BraceFree(r.value) && "{" + r.value + "}" <= s
  {
    if s == [] || s[0] != '{' then None
    else
      var n := Head(s[1..]);
      if n > 0 && n < |s| - 1 && s[n + 1] == '}' then
        assert "{" + s[1..][..n] + "}" == s[..n + 2];
        Some(s[1..][..n])
      else None
  }

  /** re.sub's scan: leftmost matches, each consumed whole, everything else passed over. */
  function Segments(s: string): seq<Segment> {
    if s == [] then []
    else
      var m := MatchAt(s);
      if m.Some? then [Token(m.value)] + Segments(s[|m.value| + 2..]) else [Lit(s[0])] + Segments(s[1..])
  }

  function Shown(seg: Segment): string {
    match seg
    case Lit(c) => [c]
    case Token(name) => "{" + name + "}"
  }

  function Unparse(segs: seq<Segment>): string {
    if segs == [] then "" else Shown(segs[0]) + Unparse(segs[1..])
  }

  /** A parameter value: an object with optional name and id texts, or a scalar's text. */
  datatype Param = Fields(name: string, id: string) | Scalar(text: string)

  /** value.get("name") or value.get("id") or key; an absent or falsy field is the empty text. */
  function DisplayOf(key: string, p: Param): string {
    match p
    case Scalar(text) => text
    case Fields(name, id) => if name != "" then name else if id != "" then id else key
  }

  function Display(parameters: map<string, Param>): map<string, string> {
    map k | k in parameters :: DisplayOf(k, parameters[k])
  }

  function Replaced(seg: Segment, display: map<string, string>): string {
    if seg.Token? && seg.name in display then display[seg.name] else Shown(seg)
  }

  function Assemble(segs: seq<Segment>, display: map<string, string>): string {
    if segs == [] then "" else Replaced(segs[0], display) + Assemble(segs[1..], display)
  }

  /** The substitution itself, as re.sub with a replacement function performs it. */
  function Substitute(s: string, display: map<string, string>): string {
    if s == [] then ""
    else
      var m := MatchAt(s);
      if m.Some? then
        (if m.value in display then display[m.value] else "{" + m.value + "}") + Substitute(s[|m.value| + 2..], display)
      else [s[0]] + Substitute(s[1..], display)
  }

  function RenderMessageRaw(messageRaw: string, parameters: map<string, Param>): string {
    Substitute(messageRaw, Display(parameters))
  }

  // ---- segmenting is lossless and exact ----

  lemma {:induction false} UnparseOfSegments(s: string)
    ensures Unparse(Segments(s)) == s
  {
    if s != [] {
      var m := MatchAt(s);
      if m.Some? {
        var t := "{" + m.value + "}";
        UnparseOfSegments(s[|t|..]);
        assert s == t + s[|t|..];
        assert Segments(s)[1..] == Segments(s[|t|..]);
      } else {
        UnparseOfSegments(s[1..]);
        assert Segments(s)[1..] == Segments(s[1..]);
      }
    }
  }

  /** Rendering is the concatenation of literals and replaced tokens, unknown tokens verbatim. */
  lemma {:induction false} SubstituteIsAssemble(s: string, display: map<string, string>)
    ensures Substitute(s, display) == Assemble(Segments(s), display)
  {
    if s != [] {
      var m := MatchAt(s);
      if m.Some? {
        SubstituteIsAssemble(s[|m.value| + 2..], display);
        assert Segments(s)[1..] == Segments(s[|m.value| + 2..]);
      } else {
        SubstituteIsAssemble(s[1..], display);
        assert Segments(s)[1..] == Segments(s[1..]);
      }
    }
  }

  lemma {:induction false} AssembleOfUnknown(segs: seq<Segment>, display: map<string, string>)
    requires forall seg :: seg in segs && seg.Token? ==> seg.name !in display
    ensures Assemble(segs, display) == Unparse(segs)
  {
    if segs != [] {
      AssembleOfUnknown(segs[1..], display);
    }
  }

  /** Where a token stands in a template: after `before` characters, {name} occurs. */
  predicate TokenAt(s: string, i: nat, name: string) {
    name != "" && BraceFree(name) && i + |name| + 2 <= |s| && s[i..i + |name| + 2] == "{" + name + "}"
  }

  lemma {:induction false} HeadStopsAtBrace(pre: string, rest: string)
    requires rest != "" && IsBrace(rest[0])
    ensures Head(pre + rest) == Head(pre)
  {
    var s := pre + rest;
    if pre == "" {
      assert s == rest;
    } else if !IsBrace(pre[0]) {
      assert s[1..] == pre[1..] + rest;
      HeadStopsAtBrace(pre[1..], rest);
    }
  }

  lemma {:induction false} HeadOfBraceFree(s: string)
    requires BraceFree(s)
    ensures Head(s) == |s|
  {
    if s != "" {
      HeadOfBraceFree(s[1..]);
    }
  }

  lemma MatchAtToken(name: string, post: string)
    requires name != "" && BraceFree(name)
    ensures MatchAt("{" + name + "}" + post) == Some(name)
  {
    var s := "{" + name + "}" + post;
    assert s[1..] == name + ("}" + post);
    HeadStopsAtBrace(name, "}" + post);
    HeadOfBraceFree(name);
    assert s[1..][..|name|] == name;
  }

  /** Where a match is: exactly in front of an opening brace, a non-empty brace-free name and a closing
      brace, and that name is the one matched. */
  lemma MatchAtIsExact(s: string, name: string)
    ensures MatchAt(s) == Some(name) <==> name != "" && BraceFree(name) && "{" + name + "}" <= s
  {
    hide MatchAt, BraceFree;
    if name != "" && BraceFree(name) && "{" + name + "}" <= s {
      var t := "{" + name + "}";
      assert s == t + s[|t|..];
      MatchAtToken(name, s[|t|..]);
    }
  }

  /** No match starts before a brace and runs across it. */
  lemma NoMatchAcrossBrace(pre: string, rest: string)
    requires pre != "" && rest != "" && rest[0] == '{'
    ensures MatchAt(pre + rest) == MatchAt(pre)
  {
    var s := pre + rest;
    if pre[0] == '{' {
      HeadStopsAtBrace(pre[1..], rest);
      assert s[1..] == pre[1..] + rest;
      var n := Head(pre[1..]);
      assert s[1..][..n] == pre[1..][..n];
    }
  }

  /** Substitution splits in front of any opening brace. */
  lemma {:induction false} SplitAtBrace(pre: string, rest: string, display: map<string, string>)
    requires rest != "" && rest[0] == '{'
    ensures Substitute(pre + rest, display) == Substitute(pre, display) + Substitute(rest, display)
  {
    hide MatchAt, BraceFree, Head;
    var s := pre + rest;
    if pre == "" {
      assert s == rest;
    } else {
      NoMatchAcrossBrace(pre, rest);
      var m := MatchAt(s);
      var k := if m.Some? then |"{" + m.value + "}"| else 1;
      assert k <= |pre| && s[k..] == pre[k..] + rest;
      SplitAtBrace(pre[k..], rest, display);
    }
  }

  lemma TokenReplacedFirst(name: string, post: string, display: map<string, string>)
    requires name != "" && BraceFree(name)
    ensures Substitute("{" + name + "}" + post, display)
         == (if name in display then display[name] else "{" + name + "}") + Substitute(post, display)
  {
    hide MatchAt, BraceFree;
    MatchAtToken(name, post);
    assert ("{" + name + "}" + post)[|name| + 2..] == post;
  }

  /** Simultaneous substitution: a token anywhere in a template is replaced on its own, whatever
      stands before and after it, and its value is inserted as is, braces and all. */
  lemma TokenReplacedInPlace(pre: string, name: string, post: string, display: map<string, string>)
    requires name != "" && BraceFree(name)
    ensures Substitute(pre + "{" + name + "}" + post, display)
         == Substitute(pre, display) + (if name in display then display[name] else "{" + name + "}")
             + Substitute(post, display)
  {
    hide Substitute, BraceFree;
    var token := "{" + name + "}" + post;
    assert pre + "{" + name + "}" + post == pre + token;
    SplitAtBrace(pre, token, display);
    TokenReplacedFirst(name, post, display);
  }

  /** What a token shows: the parameter's name, else its id, else its key; a scalar's own text; and the
      token itself when there is no such parameter. */
  lemma ParameterShown(pre: string, key: string, post: string, parameters: map<string, Param>)
    requires key != "" && BraceFree(key)
    ensures var shown := RenderMessageRaw(pre + "{" + key + "}" + post, parameters);
            var before, after := RenderMessageRaw(pre, parameters), RenderMessageRaw(post, parameters);
            && (key !in parameters ==> shown == before + ("{" + key + "}") + after)
            && (key in parameters ==>
                  match parameters[key]
                  case Scalar(text) => shown == before + text + after
                  case Fields(name, id) =>
                    && (name != "" ==> shown == before + name + after)
                    && (name == "" && id != "" ==> shown == before + id + after)
                    && (name == id == "" ==> shown == before + key + after))
  {
    hide Substitute, BraceFree;
    TokenReplacedInPlace(pre, key, post, Display(parameters));
  }

  lemma MatchIsToken(s: string)
    ensures MatchAt(s).Some? ==> TokenAt(s, 0, MatchAt(s).value)
  {
    if MatchAt(s).Some? {
      var t := "{" + MatchAt(s).value + "}";
      assert s[..|t|] == t;
    }
  }

  /** Text without a complete token passes through unchanged; with the lemma above this determines
      rendering on every template. */
  lemma {:induction false} TokenFreeTextUnchanged(s: string, display: map<string, string>)
    requires forall i: nat, name :: !TokenAt(s, i, name)
    ensures Substitute(s, display) == s
  {
    hide MatchAt;
    MatchIsToken(s);
    if s != [] {
      forall i: nat, name ensures !TokenAt(s[1..], i, name) {
        TokenBehind(s, i, name);
      }
      TokenFreeTextUnchanged(s[1..], display);
    }
  }

  lemma TokenBehind(s: string, i: nat, name: string)
    requires s != []
    ensures TokenAt(s[1..], i, name) ==> TokenAt(s, i + 1, name)
  {
    var n := |name| + 2;
    if i + n <= |s[1..]| {
      assert s[1..][i..i + n] == s[i + 1..i + 1 + n];
    }
  }

  /** A template none of whose tokens is known renders to itself. */
  lemma UnknownTokensVerbatim(s: string, parameters: map<string, Param>)
    requires forall seg :: seg in Segments(s) && seg.Token? ==> seg.name !in parameters
    ensures RenderMessageRaw(s, parameters) == s
  {
    SubstituteIsAssemble(s, Display(parameters));
    AssembleOfUnknown(Segments(s), Display(parameters));
    UnparseOfSegments(s);
  }
}
