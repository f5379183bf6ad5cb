/** The linter's glob compiler: globToRegex emits text, which is read back as a regular expression and
    compared with the glob's own tokens. Characters are ASCII. */
module Globs {
  import opened Wrappers

  /* ---- what a glob means ---- */

  /** The pieces a glob is read as, left to right. */
  datatype Token = AnyDirs | AnyText | Star | Question | Literal(c: char)

  ghost predicate NoneOf(c: char, s: string) { c !in s }

  /** The strings one token stands for: "**" followed by a slash is nothing or whole directories, "**"
      is any text, "*" any text inside one path element, "?" one character of it. */
  ghost predicate TokenMatches(t: Token, s: string) {
    match t
    case AnyDirs => s == "" || (s[|s| - 1] == '/' && NoneOf('\n', s[..|s| - 1]))
    case AnyText => NoneOf('\n', s)
    case Star => NoneOf('/', s)
    case Question => |s| == 1 && s[0] != '/'
    case Literal(c) => s == [c]
  }

  ghost predicate GlobMatches(tokens: seq<Token>, s: string) {
    if tokens == [] then s == ""
    else exists k :: 0 <= k <= |s| && TokenMatches(tokens[0], s[..k]) && GlobMatches(tokens[1..], s[k..])
  }

  /** How many characters the first token takes. */
  ghost function Width(glob: string): nat
    requires glob != ""
  {
    if |glob| >= 3 && glob[..3] == "**/" then 3 else if |glob| >= 2 && glob[..2] == "**" then 2 else 1
  }

  ghost function First(glob: string): Token
    requires glob != ""
  {
    if Width(glob) == 3 then AnyDirs
    else if Width(glob) == 2 then AnyText
    else if glob[0] == '*' then Star
    else if glob[0] == '?' then Question
    else Literal(glob[0])
  }

  ghost function Tokens(glob: string): seq<Token> {
    if glob == "" then [] else [First(glob)] + Tokens(glob[Width(glob)..])
  }

  /* ---- regular expressions ---- */

  datatype Regex = Chr(c: char) | Dot | NotSlash | Rep(body: Regex) | Opt(parts: seq<Regex>)

  predicate Matches(r: Regex, s: string)
    decreases r, |s|
  {
    match r
    case Chr(c) => s == [c]
    case Dot => |s| == 1 && s[0] != '\n'
    case NotSlash => |s| == 1 && s[0] != '/'
    case Rep(body) => s == "" || exists k :: 0 < k <= |s| && Matches(body, s[..k]) && Matches(r, s[k..])
    case Opt(parts) => s == "" || MatchesAll(parts, s)
  }

  /** A sequence of expressions matches the concatenation of what they match. */
  predicate MatchesAll(rs: seq<Regex>, s: string)
    decreases rs, |s| + 1
  {
    if rs == [] then s == ""
    else exists k :: 0 <= k <= |s| && Matches(rs[0], s[..k]) && MatchesAll(rs[1..], s[k..])
  }

  /** The characters RE2 gives a meaning of their own. */
  predicate IsSyntax(c: char) {
    c == '\\' || c == '^' || c == '$' || c == '.' || c == '|' || c == '?' || c == '*' || c == '+'
    || c == '(' || c == ')' || c == '[' || c == ']' || c == '{' || c == '}'
  }

  /** Read one expression from the front of the text: a dot, a class, an escaped syntax character or a plain
      one. Anything else, a bare syntax character above all, is not part of the dialect. */
  function ReadAtom(text: string): Option<(Regex, string)> {
    if text == "" then None
    else if text[0] == '.' then Some((Dot, text[1..]))
    else if |text| >= 4 && text[..4] == "[^/]" then Some((NotSlash, text[4..]))
    else if text[0] == '\\' && |text| >= 2 && IsSyntax(text[1]) then Some((Chr(text[1]), text[2..]))
    else if !IsSyntax(text[0]) then Some((Chr(text[0]), text[1..]))
    else None
  }

  /** Only a dot and a class start with a syntax character; a bare one is never a literal. */
  lemma BareSyntaxIsRefused(c: char, rest: string)
    requires c in ".+()[]{}|\\^$*?"
    ensures forall atom :: ReadAtom([c] + rest) == Some(atom) ==>
              (c == '.' && atom == (Dot, rest)) || (c == '[' && atom.0 == NotSlash) || (c == '\\' && rest != "" && atom == (Chr(rest[0]), rest[1..]))
  {
    var text := [c] + rest;
    assert text[0] == c && text[1..] == rest;
    assert rest != "" ==> text[1] == rest[0] && text[2..] == rest[1..];
    assert |text| >= 4 ==> text[..4][0] == c;
  }

  function ReadStar(r: Regex, text: string): (Regex, string) {
    if text != "" && text[0] == '*' then (Rep(r), text[1..]) else (r, text)
  }

  /** Read expressions until the group or the text ends. */
  function ReadSeq(text: string): (r: Option<(seq<Regex>, string)>)
    ensures r.Some? ==> |r.value.1| <= |text|
    decreases |text|
  {
    if text == "" || text[0] == ')' || text[0] == '$' then Some(([], text))
    else if |text| >= 3 && text[..3] == "(?:" then
      match ReadSeq(text[3..])
      case None => None
      case Some(group) =>
        if |group.1| >= 2 && group.1[..2] == ")?" then Prefixed(Opt(group.0), ReadSeq(group.1[2..])) else None
    else
      match ReadAtom(text)
      case None => None
      case Some(atom) =>
        var starred := ReadStar(atom.0, atom.1);
        Prefixed(starred.0, ReadSeq(starred.1))
  }

  function Prefixed(r: Regex, more: Option<(seq<Regex>, string)>): Option<(seq<Regex>, string)> {
    if more.None? then None else Some(([r] + more.value.0, more.value.1))
  }

  /** regexp.Compile on an anchored expression of this dialect. */
  function Compile(text: string): Option<seq<Regex>> {
    if text == "" || text[0] != '^' then None
    else
      match ReadSeq(text[1..])
      case None => None
      case Some(read) => if read.1 == "$" then Some(read.0) else None
  }

  ghost predicate IsSuffix(rest: string, text: string) { |rest| <= |text| && text[|text| - |rest|..] == rest }

  lemma SuffixTrans(a: string, b: string, c: string)
    requires IsSuffix(a, b) && IsSuffix(b, c)
    ensures IsSuffix(a, c)
  {
    assert c[|c| - |a|..] == c[|c| - |b|..][|b| - |a|..];
  }

  lemma AtomLeaves(text: string)
    requires ReadAtom(text).Some?
    ensures var atom := ReadAtom(text).value; IsSuffix(ReadStar(atom.0, atom.1).1, text) && |ReadStar(atom.0, atom.1).1| < |text|
  {
    var atom := ReadAtom(text).value;
    assert IsSuffix(atom.1, text);
    assert ReadStar(atom.0, atom.1).1 != atom.1 ==> IsSuffix(ReadStar(atom.0, atom.1).1, atom.1);
    SuffixTrans(ReadStar(atom.0, atom.1).1, atom.1, text);
  }

  lemma {:induction false} ReadLeaves(text: string)
    ensures ReadSeq(text).Some? ==> IsSuffix(ReadSeq(text).value.1, text)
    decreases |text|
  {
    if text == "" || text[0] == ')' || text[0] == '$' {
    } else if |text| >= 3 && text[..3] == "(?:" {
      ReadLeaves(text[3..]);
      if ReadSeq(text[3..]).Some? && ReadSeq(text).Some? {
        var end := ReadSeq(text[3..]).value.1;
        ReadLeaves(end[2..]);
        SuffixTrans(ReadSeq(end[2..]).value.1, end[2..], end);
        SuffixTrans(ReadSeq(end[2..]).value.1, end, text[3..]);
        SuffixTrans(ReadSeq(end[2..]).value.1, text[3..], text);
      }
    } else if ReadAtom(text).Some? {
      AtomLeaves(text);
      var atom := ReadAtom(text).value;
      var rest := ReadStar(atom.0, atom.1).1;
      ReadLeaves(rest);
      if ReadSeq(rest).Some? {
        SuffixTrans(ReadSeq(rest).value.1, rest, text);
      }
      hide ReadAtom, ReadStar, IsSuffix;
    }
  }

  /** Only expressions anchored at both ends compile, which is why matching means matching the whole string. */
  lemma AnchoredAtBothEnds(text: string)
    requires Compile(text).Some?
    ensures |text| >= 2 && text[0] == '^' && text[|text| - 1] == '$'
  {
    ReadLeaves(text[1..]);
    hide ReadSeq;
    assert text[1..][|text| - 2..] == "$";
  }

  /* ---- the compiler ---- */

  ghost function Emit(t: Token): string {
    match t
    case AnyDirs => "(?:.*/)?"
    case AnyText => ".*"
    case Star => "[^/]*"
    case Question => "[^/]"
    case Literal(c) => if c in ".+()[]{}|\\^$" then ['\\', c] else [c]
  }

  ghost function EmitAll(tokens: seq<Token>): string {
    if tokens == [] then "" else Emit(tokens[0]) + EmitAll(tokens[1..])
  }

  const ESCAPED := ".+()[]{}|\\^$"

  /** What the code looks at from position `i`. */
  lemma LookAt(glob: string, i: nat)
    requires i < |glob|
    ensures var rest, stars := glob[i..], i + 1 < |glob| && glob[i..i + 2] == "**";
            Width(rest) == (if stars && i + 2 < |glob| && glob[i + 2] == '/' then 3 else if stars then 2 else 1)
            && Emit(First(rest)) == if stars && i + 2 < |glob| && glob[i + 2] == '/' then "(?:.*/)?"
                                    else if stars then ".*"
                                    else if glob[i] == '*' then "[^/]*"
                                    else if glob[i] == '?' then "[^/]"
                                    else if glob[i] in ESCAPED then ['\\'] + [glob[i]]
                                    else [glob[i]]
  {
    var rest := glob[i..];
    assert |rest| >= 2 ==> rest[..2] == glob[i..i + 2];
    assert |rest| >= 3 ==> rest[..3] == rest[..2] + [rest[2]];
  }

  lemma EmitMore(glob: string, i: nat)
    requires i < |glob|
    ensures i + Width(glob[i..]) <= |glob|
    ensures EmitAll(Tokens(glob[i..])) == Emit(First(glob[i..])) + EmitAll(Tokens(glob[i + Width(glob[i..])..]))
  {
    var rest := glob[i..];
    assert rest[Width(rest)..] == glob[i + Width(rest)..];
    var more := Tokens(rest[Width(rest)..]);
    assert ([First(rest)] + more)[1..] == more;
    hide First, Emit, Width;
  }

  lemma WriteMore(glob: string, i: nat, text: string)
    requires i < |glob|
    ensures i + Width(glob[i..]) <= |glob|
    ensures text + EmitAll(Tokens(glob[i..])) == text + Emit(First(glob[i..])) + EmitAll(Tokens(glob[i + Width(glob[i..])..]))
  {
    hide *;
    EmitMore(glob, i);
    Reassociate(text, Emit(First(glob[i..])), EmitAll(Tokens(glob[i + Width(glob[i..])..])));
  }

  lemma NothingMore(glob: string)
    ensures EmitAll(Tokens(glob[|glob|..])) == "" && glob[0..] == glob
  {
  }

  /** globToRegex: a loop over the glob that writes one piece of text per step. */
  method GlobToRegex(glob: string) returns (text: string)
    ensures text == "^" + EmitAll(Tokens(glob)) + "$"
  {
    text := "^";
    var i := 0;
    NothingMore(glob);
    hide *;
    while i < |glob|
      invariant 0 <= i <= |glob|
      invariant text + EmitAll(Tokens(glob[i..])) == "^" + EmitAll(Tokens(glob))
      decreases |glob| - i
    {
      LookAt(glob, i);
      ghost var before, at := text, i;
      if i + 1 < |glob| && glob[i..i + 2] == "**" {
        if i + 2 < |glob| && glob[i + 2] == '/' {
          text := text + "(?:.*/)?";
          i := i + 3;
        } else {
          text := text + ".*";
          i := i + 2;
        }
      } else if glob[i] == '*' {
        text := text + "[^/]*";
        i := i + 1;
      } else if glob[i] == '?' {
        text := text + "[^/]";
        i := i + 1;
      } else if glob[i] in ESCAPED {
        text := text + (['\\'] + [glob[i]]);
        i := i + 1;
      } else {
        text := text + [glob[i]];
        i := i + 1;
      }
      assert text == before + Emit(First(glob[at..])) && i == at + Width(glob[at..]);
      WriteMore(glob, at, before);
    }
    text := text + "$";
  }

  /* ---- reading the emitted text back ---- */

  ghost function Piece(t: Token): Regex {
    match t
    case AnyDirs => Opt([Rep(Dot), Chr('/')])
    case AnyText => Rep(Dot)
    case Star => Rep(NotSlash)
    case Question => NotSlash
    case Literal(c) => Chr(c)
  }

  ghost function Pieces(tokens: seq<Token>): seq<Regex> {
    if tokens == [] then [] else [Piece(tokens[0])] + Pieces(tokens[1..])
  }

  /** Wildcards never become literals. */
  ghost predicate Proper(tokens: seq<Token>) {
    forall i :: 0 <= i < |tokens| && tokens[i].Literal? ==> tokens[i].c != '*' && tokens[i].c != '?'
  }

  lemma TokensProper(glob: string)
    ensures Proper(Tokens(glob))
  {
    if glob != "" {
      TokensProper(glob[Width(glob)..]);
    }
  }

  lemma ReadOne(text: string, atom: Regex, tail: string)
    requires text != "" && text[0] !in {')', '$', '('} && ReadAtom(text) == Some((atom, tail))
    ensures ReadSeq(text) == Prefixed(ReadStar(atom, tail).0, ReadSeq(ReadStar(atom, tail).1))
  {
    assert |text| >= 3 ==> text[..3][0] == text[0];
    hide ReadAtom, ReadStar;
  }

  lemma ReadStarred(text: string, atom: Regex, rest: string)
    requires text != "" && text[0] !in {')', '$', '('} && ReadAtom(text) == Some((atom, "*" + rest))
    ensures ReadSeq(text) == Prefixed(Rep(atom), ReadSeq(rest))
  {
    assert ("*" + rest)[1..] == rest;
    hide ReadAtom, ReadSeq;
    ReadOne(text, atom, "*" + rest);
  }

  lemma ReadPlain(text: string, atom: Regex, rest: string)
    requires text != "" && text[0] !in {')', '$', '('} && ReadAtom(text) == Some((atom, rest)) && rest != "" && rest[0] != '*'
    ensures ReadSeq(text) == Prefixed(atom, ReadSeq(rest))
  {
    hide ReadAtom, ReadSeq;
    ReadOne(text, atom, rest);
  }

  lemma ReadText(rest: string)
    ensures ReadSeq(".*" + rest) == Prefixed(Rep(Dot), ReadSeq(rest))
  {
    var text := ".*" + rest;
    assert text[0] == '.' && text[1..] == "*" + rest;
    hide ReadSeq;
    ReadStarred(text, Dot, rest);
  }

  lemma ReadClass(tail: string)
    ensures ReadAtom("[^/]" + tail) == Some((NotSlash, tail)) && ("[^/]" + tail)[0] == '['
  {
    var text := "[^/]" + tail;
    assert text[0] == '[' && text[..4] == "[^/]" && text[4..] == tail;
  }

  lemma Reassociate(a: string, b: string, rest: string)
    ensures a + b + rest == a + (b + rest)
  {
  }

  lemma ReadElement(rest: string)
    ensures ReadSeq("[^/]*" + rest) == Prefixed(Rep(NotSlash), ReadSeq(rest))
  {
    hide *;
    assert "[^/]" + "*" == "[^/]*";
    Reassociate("[^/]", "*", rest);
    ReadClass("*" + rest);
    ReadStarred("[^/]" + ("*" + rest), NotSlash, rest);
  }

  lemma ReadOneElement(rest: string)
    requires rest != "" && rest[0] != '*'
    ensures ReadSeq("[^/]" + rest) == Prefixed(NotSlash, ReadSeq(rest))
  {
    hide *;
    ReadClass(rest);
    ReadPlain("[^/]" + rest, NotSlash, rest);
  }

  /** The compiler escapes every syntax character but the wildcards, and nothing else. */
  lemma EscapesAreSyntax(c: char)
    ensures IsSyntax(c) <==> c in ".+()[]{}|\\^$" || c == '*' || c == '?'
  {
    var escaped := ".+()[]{}|\\^$";
    assert escaped == ['.', '+', '(', ')', '[', ']', '{', '}', '|', '\\', '^', '$'];
    assert IsSyntax(c) && c != '*' && c != '?' ==>
             c == escaped[0] || c == escaped[1] || c == escaped[2] || c == escaped[3] || c == escaped[4] || c == escaped[5]
             || c == escaped[6] || c == escaped[7] || c == escaped[8] || c == escaped[9] || c == escaped[10] || c == escaped[11];
  }

  lemma ReadLiteralAtom(c: char, rest: string)
    requires c != '*' && c != '?'
    ensures ReadAtom(Emit(Literal(c)) + rest) == Some((Chr(c), rest)) && (Emit(Literal(c)) + rest)[0] !in {')', '$', '('}
  {
    var text := Emit(Literal(c)) + rest;
    var escaped := ".+()[]{}|\\^$";
    EscapesAreSyntax(c);
    if c in escaped {
      assert text[0] == '\\' && text[1] == c && text[2..] == rest;
      assert |text| >= 4 ==> text[..4][0] == '\\';
    } else {
      assert text[0] == c && text[1..] == rest;
      assert |text| >= 4 ==> text[..4][0] == c;
    }
  }

  lemma ReadLiteral(c: char, rest: string)
    requires c != '*' && c != '?' && rest != "" && rest[0] != '*'
    ensures ReadSeq(Emit(Literal(c)) + rest) == Prefixed(Chr(c), ReadSeq(rest))
  {
    hide ReadSeq, ReadAtom, Emit;
    ReadLiteralAtom(c, rest);
    ReadPlain(Emit(Literal(c)) + rest, Chr(c), rest);
  }

  lemma EmitStarts(tokens: seq<Token>)
    requires Proper(tokens)
    ensures (EmitAll(tokens) + "$")[0] != '*'
  {
    if tokens != [] {
      assert Emit(tokens[0]) != "" && (EmitAll(tokens) + "$")[0] == Emit(tokens[0])[0];
    }
  }

  lemma ReadGroup(inner: string, rest: string, group: seq<Regex>)
    requires ReadSeq(inner) == Some((group, ")?" + rest))
    ensures ReadSeq("(?:" + inner) == Prefixed(Opt(group), ReadSeq(rest))
  {
    var text := "(?:" + inner;
    assert text[0] == '(' && text[..3] == "(?:" && text[3..] == inner;
    assert (")?" + rest)[..2] == ")?" && (")?" + rest)[2..] == rest;
  }

  /** The group of "**" followed by a slash, up to its end. */
  lemma ReadInner(end: string)
    requires end != "" && end[0] == ')' && ReadSeq(end) == Some(([], end))
    ensures ReadSeq(".*" + ("/" + end)) == Some(([Rep(Dot), Chr('/')], end))
  {
    assert Emit(Literal('/')) == "/";
    hide ReadSeq, Emit;
    ReadLiteral('/', end);
    ReadText("/" + end);
    var none: seq<Regex> := [];
    assert [Chr('/')] + none == [Chr('/')] && [Rep(Dot)] + [Chr('/')] == [Rep(Dot), Chr('/')];
  }

  lemma ReadDirs(rest: string)
    ensures ReadSeq("(?:.*/)?" + rest) == Prefixed(Opt([Rep(Dot), Chr('/')]), ReadSeq(rest))
  {
    var end := ")?" + rest;
    assert end[0] == ')' && ReadSeq(end) == Some(([], end));
    hide *;
    ReadInner(end);
    ReadGroup(".*" + ("/" + end), rest, [Rep(Dot), Chr('/')]);
    SpellOut(rest);
  }

  lemma SpellOut(rest: string)
    ensures "(?:" + (".*" + ("/" + (")?" + rest))) == "(?:.*/)?" + rest
  {
    var a, b, c, d := "(?:", ".*", "/", ")?";
    var dirs := a + b + c + d;
    assert dirs == "(?:.*/)?";
    Flatten(a, b, c, d, rest);
    assert dirs + rest == "(?:.*/)?" + rest;
  }

  lemma Flatten(a: string, b: string, c: string, d: string, rest: string)
    ensures a + (b + (c + (d + rest))) == a + b + c + d + rest
  {
  }

  lemma {:induction false} EmittedReadsBack(tokens: seq<Token>)
    requires Proper(tokens)
    ensures ReadSeq(EmitAll(tokens) + "$") == Some((Pieces(tokens), "$"))
  {
    if tokens == [] {
      assert EmitAll(tokens) + "$" == "$";
    } else {
      var more := tokens[1..];
      var rest := EmitAll(more) + "$";
      EmittedReadsBack(more);
      EmitStarts(more);
      assert EmitAll(tokens) + "$" == Emit(tokens[0]) + rest;
      hide ReadSeq;
      match tokens[0]
      case AnyDirs => ReadDirs(rest);
      case AnyText => ReadText(rest);
      case Star => ReadElement(rest);
      case Question => ReadOneElement(rest);
      case Literal(c) => ReadLiteral(c, rest);
    }
  }

  /** The emitted text always compiles, to the pieces of the glob's tokens. */
  lemma CompilesToTokens(glob: string)
    ensures Compile("^" + EmitAll(Tokens(glob)) + "$") == Some(Pieces(Tokens(glob)))
  {
    TokensProper(glob);
    EmittedReadsBack(Tokens(glob));
    var text := "^" + EmitAll(Tokens(glob)) + "$";
    assert text[1..] == EmitAll(Tokens(glob)) + "$";
  }

  /* ---- the same strings ---- */

  lemma {:induction false} RepDot(s: string)
    ensures Matches(Rep(Dot), s) <==> NoneOf('\n', s)
  {
    if s != "" {
      RepDot(s[1..]);
      assert s == [s[0]] + s[1..];
      if NoneOf('\n', s) {
        assert s[0] in s && forall c :: c in s[1..] ==> c in s;
        assert Matches(Dot, s[..1]) && Matches(Rep(Dot), s[1..]);
      }
      if Matches(Rep(Dot), s) {
        var k :| 0 < k <= |s| && Matches(Dot, s[..k]) && Matches(Rep(Dot), s[k..]);
        assert k == 1 && s[..1][0] == s[0];
      }
    }
  }

  lemma {:induction false} RepNotSlash(s: string)
    ensures Matches(Rep(NotSlash), s) <==> NoneOf('/', s)
  {
    if s != "" {
      RepNotSlash(s[1..]);
      assert s == [s[0]] + s[1..];
      if NoneOf('/', s) {
        assert s[0] in s && forall c :: c in s[1..] ==> c in s;
        assert Matches(NotSlash, s[..1]) && Matches(Rep(NotSlash), s[1..]);
      }
      if Matches(Rep(NotSlash), s) {
        var k :| 0 < k <= |s| && Matches(NotSlash, s[..k]) && Matches(Rep(NotSlash), s[k..]);
        assert k == 1 && s[..1][0] == s[0];
      }
    }
  }

  lemma OneSlash(t: string)
    ensures MatchesAll([Chr('/')], t) <==> t == "/"
  {
    var parts := [Chr('/')];
    assert parts[1..] == [];
    if MatchesAll(parts, t) {
      var k :| 0 <= k <= |t| && Matches(parts[0], t[..k]) && MatchesAll(parts[1..], t[k..]);
      assert t == t[..k] + t[k..];
    }
    if t == "/" {
      assert t[..1] == "/" && t[1..] == "" && Matches(parts[0], t[..1]) && MatchesAll(parts[1..], t[1..]);
    }
  }

  lemma DirsMatch(s: string)
    requires MatchesAll([Rep(Dot), Chr('/')], s)
    ensures s != "" && s[|s| - 1] == '/' && NoneOf('\n', s[..|s| - 1])
  {
    var parts := [Rep(Dot), Chr('/')];
    assert parts[1..] == [Chr('/')];
    var k :| 0 <= k <= |s| && Matches(parts[0], s[..k]) && MatchesAll(parts[1..], s[k..]);
    hide Matches, MatchesAll;
    OneSlash(s[k..]);
    assert s == s[..k] + s[k..] && k == |s| - 1;
    RepDot(s[..k]);
  }

  lemma DirsMatched(s: string)
    requires s != "" && s[|s| - 1] == '/' && NoneOf('\n', s[..|s| - 1])
    ensures MatchesAll([Rep(Dot), Chr('/')], s)
  {
    var parts, k := [Rep(Dot), Chr('/')], |s| - 1;
    assert parts[1..] == [Chr('/')] && s[k..] == "/";
    hide Matches;
    RepDot(s[..k]);
    OneSlash(s[k..]);
    assert Matches(parts[0], s[..k]) && MatchesAll(parts[1..], s[k..]);
  }

  lemma OptDirs(s: string)
    ensures Matches(Opt([Rep(Dot), Chr('/')]), s) <==> TokenMatches(AnyDirs, s)
  {
    assert Matches(Opt([Rep(Dot), Chr('/')]), s) <==> s == "" || MatchesAll([Rep(Dot), Chr('/')], s);
    hide Matches, MatchesAll;
    if MatchesAll([Rep(Dot), Chr('/')], s) {
      DirsMatch(s);
    }
    if s != "" && TokenMatches(AnyDirs, s) {
      DirsMatched(s);
    }
  }

  /** A piece matches exactly the strings its token stands for; a literal only itself. */
  lemma PieceMatches(t: Token, s: string)
    ensures Matches(Piece(t), s) <==> TokenMatches(t, s)
  {
    match t
    case AnyDirs => OptDirs(s);
    case AnyText => RepDot(s);
    case Star => RepNotSlash(s);
    case Question =>
    case Literal(c) =>
  }

  /** What the compiled expression matches is what the glob means. */
  lemma {:induction false} SameLanguage(tokens: seq<Token>, s: string)
    ensures MatchesAll(Pieces(tokens), s) <==> GlobMatches(tokens, s)
  {
    if tokens != [] {
      var pieces := Pieces(tokens);
      assert pieces[0] == Piece(tokens[0]) && pieces[1..] == Pieces(tokens[1..]);
      forall k | 0 <= k <= |s|
        ensures Matches(pieces[0], s[..k]) && MatchesAll(pieces[1..], s[k..]) <==> TokenMatches(tokens[0], s[..k]) && GlobMatches(tokens[1..], s[k..])
      {
        PieceMatches(tokens[0], s[..k]);
        SameLanguage(tokens[1..], s[k..]);
      }
      hide Matches, TokenMatches, Piece;
    }
  }

  /* ---- MatchGlob ---- */

  /** strings.ReplaceAll of backslashes. */
  function Slashes(s: string): string { seq(|s|, i requires 0 <= i < |s| => if s[i] == '\\' then '/' else s[i]) }

  function TrimDot(s: string): string { if |s| >= 2 && s[..2] == "./" then s[2..] else s }

  function Normal(s: string): string { TrimDot(Slashes(s)) }

  /** `t` spells the path `s` with slashes. */
  ghost predicate Slashed(s: string, t: string) {
    |s| == |t| && '\\' !in t && forall i :: 0 <= i < |s| ==> t[i] == s[i] || (s[i] == '\\' && t[i] == '/')
  }

  /** A path is normalised by spelling it with slashes and dropping one leading "./". */
  lemma NormalForm(s: string, t: string)
    requires Slashed(s, t)
    ensures Normal(s) == Normal(t)
    ensures !("./" <= t) ==> Normal(t) == t
    ensures Normal("./" + t) == t
  {
    forall i | 0 <= i < |s|
      ensures Slashes(s)[i] == t[i] && Slashes(t)[i] == t[i]
    {
      assert t[i] in t;
    }
    assert Slashes(s) == t && Slashes(t) == t;
    var dotted := "./" + t;
    forall i | 0 <= i < |dotted|
      ensures Slashes(dotted)[i] == dotted[i]
    {
      assert dotted[i] == if i < 2 then "./"[i] else t[i - 2];
      if i >= 2 {
        assert t[i - 2] in t;
      }
    }
    assert Slashes(dotted) == dotted && dotted[..2] == "./" && dotted[2..] == t;
  }

  /** What a normalised pattern matches: itself, what lies under it if it ends in a slash, and what its
      tokens or, without "**", path.Match says. */
  ghost predicate PathMatches(p: string, f: string, pathMatch: (string, string) -> bool) {
    p == f || (p != "" && p[|p| - 1] == '/' && p <= f)
    || if exists i :: 0 <= i < |p| - 1 && p[i] == '*' && p[i + 1] == '*' then GlobMatches(Tokens(p), f) else pathMatch(p, f)
  }

  /** MatchGlob. MatchesAll is the library's matcher on an anchored expression; `pathMatch` stands for
      path.Match. */
  method MatchGlob(pattern: string, filePath: string, pathMatch: (string, string) -> bool) returns (matched: bool)
    ensures matched <==> pattern in {"", "*", "**"} || PathMatches(Normal(pattern), Normal(filePath), pathMatch)
  {
    if pattern == "" || pattern == "*" || pattern == "**" {
      return true;
    }
    var p, f := Normal(pattern), Normal(filePath);
    hide Normal, GlobMatches, MatchesAll, Compile, Tokens, Pieces, EmitAll;
    if p == f {
      return true;
    }
    if p != "" && p[|p| - 1] == '/' && p <= f {
      return true;
    }
    if exists i :: 0 <= i < |p| - 1 && p[i] == '*' && p[i + 1] == '*' {
      var regexPattern := GlobToRegex(p);
      CompilesToTokens(p);
      var re := Compile(regexPattern);
      if re.None? {
        return false;
      }
      SameLanguage(Tokens(p), f);
      return MatchesAll(re.value, f);
    }
    return pathMatch(p, f);
  }

  /** How pattern and path are spelt makes no difference: backslashes count as slashes, and one leading "./"
      is ignored. */
  lemma SpellingIsIgnored(pattern: string, slashed: string, filePath: string, slashedPath: string, pathMatch: (string, string) -> bool)
    requires Slashed(pattern, slashed) && Slashed(filePath, slashedPath) && !("./" <= slashed) && !("./" <= slashedPath)
    ensures var meant := PathMatches(slashed, slashedPath, pathMatch);
            (PathMatches(Normal(pattern), Normal(filePath), pathMatch) <==> meant)
            && (PathMatches(Normal("./" + slashed), Normal(filePath), pathMatch) <==> meant)
            && (PathMatches(Normal(pattern), Normal("./" + slashedPath), pathMatch) <==> meant)
  {
    NormalForm(pattern, slashed);
    NormalForm(filePath, slashedPath);
    hide *;
  }
}
