/**
 Shell-style patterns as the source matches them: Python's `fnmatchcase` on whole
 strings, and the star-only matcher of the browser verifier.

 The result the capability chains need is containment: a pattern that passes the
 child-against-parent check admits nothing its parent does not admit. That check
 matches the child's *pattern* as if it were a plain string, which is sound for
 some parents and children and not for others; `ContainmentOfPlainChildren` and
 `ContainmentOfAllChildren` say for which parents.
 */
module Glob {
  import opened Wrappers

  /** Where the class that opens before `s` closes: the index of its `]`, if it has one. */
  function ClassEnd(s: string): Option<nat> {
    var skip := if s != "" && s[0] == '!' then 1 else 0;
    var from := if skip < |s| && s[skip] == ']' then skip + 1 else skip;
    FindFrom(s, ']', from)
  }

  function FindFrom(s: string, c: char, i: nat): (r: Option<nat>)
    requires i <= |s|
    ensures r.Some? ==> i <= r.value < |s| && s[r.value] == c
    decreases |s| - i
  {
    if i == |s| then None else if s[i] == c then Some(i) else FindFrom(s, c, i + 1)
  }

  /** Membership in the text of a class: single characters and `a-z` ranges. */
  predicate InRanges(body: string, c: char) {
    body != "" &&
    if |body| >= 3 && body[1] == '-' then (body[0] <= c <= body[2]) || InRanges(body[3..], c)
    else body[0] == c || InRanges(body[1..], c)
  }

  predicate InClass(body: string, c: char) {
    if body != "" && body[0] == '!' then !InRanges(body[1..], c) else InRanges(body, c)
  }

  /** `fnmatchcase(value, pattern)` */
  predicate Matches(pattern: string, value: string)
    decreases |pattern| + |value|
  {
    if pattern == "" then value == ""
    else if pattern[0] == '*' then
      Matches(pattern[1..], value) || (value != "" && Matches(pattern, value[1..]))
    else if pattern[0] == '?' then value != "" && Matches(pattern[1..], value[1..])
    else if pattern[0] == '[' && ClassEnd(pattern[1..]).Some? then
      var end := ClassEnd(pattern[1..]).value;
      value != "" && InClass(pattern[1..][..end], value[0]) && Matches(pattern[1..][end + 1..], value[1..])
    else value != "" && value[0] == pattern[0] && Matches(pattern[1..], value[1..])
  }

  /** `any(fnmatchcase(value, pattern) for pattern in patterns)` */
  predicate MatchesAny(patterns: seq<string>, value: string) {
    exists p :: p in patterns && Matches(p, value)
  }

  predicate Literal(pattern: string) {
    '*' !in pattern && '?' !in pattern && '[' !in pattern
  }

  /** Literal characters and `*` only. */
  predicate StarOnly(pattern: string) {
    '?' !in pattern && '[' !in pattern
  }

  lemma {:induction false} LiteralMatches(pattern: string, value: string)
    requires Literal(pattern)
    ensures Matches(pattern, value) <==> pattern == value
  {
    if pattern != "" {
      assert pattern[0] in pattern;
      if value != "" {
        LiteralMatches(pattern[1..], value[1..]);
        assert pattern == [pattern[0]] + pattern[1..] && value == [value[0]] + value[1..];
      }
    }
  }

  lemma {:induction false} StarMatches(value: string)
    ensures Matches("*", value)
  {
    assert "*"[1..] == "";
    if value != "" { StarMatches(value[1..]); }
  }

  /** One step of `Matches` that consumes a literal character. */
  lemma LiteralStep(pattern: string, value: string)
    requires pattern != "" && value != "" && pattern[0] !in {'*', '?', '['}
    ensures Matches(pattern, value) <==> pattern[0] == value[0] && Matches(pattern[1..], value[1..])
  {
  }

  lemma StarStep(pattern: string, value: string)
    requires pattern != "" && pattern[0] == '*'
    ensures Matches(pattern[1..], value) ==> Matches(pattern, value)
    ensures value != "" && Matches(pattern, value[1..]) ==> Matches(pattern, value)
  {
  }

  /**
   A pattern `child` that a star-only `parent` matches as a string admits only
   values the parent admits.
   */
  lemma {:induction false} Containment(parent: string, child: string, value: string)
    requires StarOnly(parent) && '[' !in child
    requires Matches(parent, child) && Matches(child, value)
    ensures Matches(parent, value)
    decreases |parent| + |child| + |value|
  {
    if parent != "" {
      assert parent[0] in parent;
      if child != "" { assert child[0] in child; }
      if parent[0] == '*' {
        StarStep(parent, value);
        if Matches(parent[1..], child) {
          Containment(parent[1..], child, value);
        } else if child[0] == '*' {
          if Matches(child[1..], value) {
            Containment(parent, child[1..], value);
          } else {
            Containment(parent, child, value[1..]);
          }
        } else {
          Containment(parent, child[1..], value[1..]);
        }
      } else {
        LiteralStep(parent, child);
        Containment(parent[1..], child[1..], value[1..]);
      }
    }
  }

  // ---- when the string check implies containment ----

  /** A pattern that `parent` matches as a string admits only values `parent` admits. */
  ghost predicate ContainsIfMatched(parent: string, child: string) {
    Matches(parent, child) ==> forall value :: Matches(child, value) ==> Matches(parent, value)
  }

  /** `pattern` with every `?` turned into `*`. */
  function Widened(pattern: string): string {
    if pattern == "" then "" else [if pattern[0] == '?' then '*' else pattern[0]] + Widened(pattern[1..])
  }

  /** The literal characters of `pattern`. */
  function Literals(pattern: string): string {
    if pattern == "" then ""
    else if pattern[0] in {'*', '?'} then Literals(pattern[1..])
    else [pattern[0]] + Literals(pattern[1..])
  }

  /** The least number of characters a class-free pattern consumes. */
  function MinLength(pattern: string): nat {
    if pattern == "" then 0 else (if pattern[0] == '*' then 0 else 1) + MinLength(pattern[1..])
  }

  lemma {:induction false} MatchIsLongEnough(pattern: string, value: string)
    requires '[' !in pattern && Matches(pattern, value)
    ensures |value| >= MinLength(pattern)
    decreases |pattern| + |value|
  {
    if pattern != "" {
      assert pattern[0] in pattern;
      if pattern[0] == '*' {
        if Matches(pattern[1..], value) { MatchIsLongEnough(pattern[1..], value); }
        else { MatchIsLongEnough(pattern, value[1..]); }
      } else {
        MatchIsLongEnough(pattern[1..], value[1..]);
      }
    }
  }

  lemma {:induction false} LiteralsShorter(pattern: string)
    ensures |Literals(pattern)| <= MinLength(pattern)
    ensures '?' in pattern ==> |Literals(pattern)| < MinLength(pattern)
  {
    if pattern != "" {
      LiteralsShorter(pattern[1..]);
      assert pattern == [pattern[0]] + pattern[1..];
    }
  }

  lemma {:induction false} MatchesWidened(pattern: string)
    requires '[' !in pattern
    ensures Matches(pattern, Widened(pattern)) && '[' !in Widened(pattern)
  {
    if pattern != "" {
      assert pattern[0] in pattern;
      MatchesWidened(pattern[1..]);
      var w := Widened(pattern);
      assert w[1..] == Widened(pattern[1..]);
      if pattern[0] == '*' {
        StarStep(pattern, w[1..]);
        StarStep(pattern, w);
      }
    }
  }

  lemma {:induction false} WidenedMatchesLiterals(pattern: string)
    requires '[' !in pattern
    ensures Matches(Widened(pattern), Literals(pattern))
  {
    if pattern != "" {
      assert pattern[0] in pattern;
      WidenedMatchesLiterals(pattern[1..]);
      var w, l := Widened(pattern), Literals(pattern);
      assert w[1..] == Widened(pattern[1..]);
      if w[0] == '*' { StarStep(w, l); }
      else {
        assert l[1..] == Literals(pattern[1..]);
        LiteralStep(w, l);
      }
    }
  }

  lemma QuestionMarkEscapes(parent: string)
    requires '[' !in parent && '?' in parent
    ensures '[' !in Widened(parent) && !ContainsIfMatched(parent, Widened(parent))
  {
    MatchesWidened(parent);
    WidenedMatchesLiterals(parent);
    LiteralsShorter(parent);
    if Matches(parent, Literals(parent)) { MatchIsLongEnough(parent, Literals(parent)); }
  }

  /** Over children without classes, a parent without classes contains what it matches exactly when it has no `?`. */
  lemma ContainmentOfPlainChildren(parent: string)
    requires '[' !in parent
    ensures (forall child :: '[' !in child ==> ContainsIfMatched(parent, child)) <==> '?' !in parent
  {
    if '?' in parent {
      QuestionMarkEscapes(parent);
    } else {
      forall child, value | '[' !in child && Matches(parent, child) && Matches(child, value)
        ensures Matches(parent, value)
      {
        Containment(parent, child, value);
      }
    }
  }

  // ---- children with character classes ----

  /**
   Behind a star there are only stars and then, at the very end, literal characters other
   than `]`: nothing a class in the child could swallow a part of.
   */
  predicate OpenEnded(parent: string) {
    forall i, k :: 0 <= i < k < |parent| && parent[i] == '*' && parent[k] != '*' ==>
      parent[k] != ']' && '*' !in parent[k..]
  }

  lemma OpenEndedTail(parent: string)
    requires OpenEnded(parent) && parent != ""
    ensures OpenEnded(parent[1..])
  {
    var t := parent[1..];
    forall i, k | 0 <= i < k < |t| && t[i] == '*' && t[k] != '*' ensures t[k] != ']' && '*' !in t[k..] {
      assert parent[i + 1] == '*' && parent[k + 1] != '*' && t[k..] == parent[k + 1..];
    }
  }

  /** Literal characters none of which can end a class. */
  predicate Inert(s: string) {
    Literal(s) && ']' !in s
  }

  predicate EndsWith(s: string, tail: string) {
    |tail| <= |s| && s[|s| - |tail|..] == tail
  }

  /** One star and a literal tail: what ends in the tail. */
  lemma {:induction false} StarTail(tail: string, value: string)
    requires Literal(tail)
    ensures Matches("*" + tail, value) <==> EndsWith(value, tail)
    decreases |value|
  {
    var p := "*" + tail;
    assert p[1..] == tail;
    LiteralMatches(tail, value);
    if value != "" {
      StarTail(tail, value[1..]);
      if EndsWith(value, tail) && value != tail {
        assert value[1..][|value[1..]| - |tail|..] == value[|value| - |tail|..];
      }
      if EndsWith(value[1..], tail) {
        assert value[1..][|value[1..]| - |tail|..] == value[|value| - |tail|..];
      }
    }
  }

  lemma {:induction false} MoreStars(parent: string, value: string)
    requires parent != "" && parent[0] == '*'
    ensures Matches("*" + parent, value) <==> Matches(parent, value)
    decreases |value|
  {
    var p := "*" + parent;
    assert p[1..] == parent;
    if value != "" {
      MoreStars(parent, value[1..]);
      StarStep(parent, value);
    }
  }

  /** An open-ended parent that starts with a star asks for an inert tail and nothing else. */
  lemma {:induction false} OpenEndedIsTail(parent: string) returns (tail: string)
    requires StarOnly(parent) && OpenEnded(parent) && parent != "" && parent[0] == '*'
    ensures Inert(tail) && forall value :: Matches(parent, value) <==> EndsWith(value, tail)
  {
    var rest := parent[1..];
    assert parent == "*" + rest;
    if rest != "" && rest[0] == '*' {
      OpenEndedTail(parent);
      assert forall c :: c in rest ==> c in parent;
      tail := OpenEndedIsTail(rest);
      forall value ensures Matches(parent, value) <==> EndsWith(value, tail) { MoreStars(rest, value); }
    } else {
      tail := rest;
      forall k | 0 <= k < |rest| ensures rest[k] != '*' && rest[k] != ']' && rest[k] != '?' && rest[k] != '[' {
        assert parent[k + 1] == rest[k] && parent[k + 1] in parent;
        if rest != "" {
          assert parent[1] == rest[0] && parent[1] != '*';
          assert parent[1] != ']' && '*' !in parent[1..];
          assert rest[k] in parent[1..];
          assert parent[0] == '*' && parent[k + 1] != '*';
        }
      }
      forall value ensures Matches(parent, value) <==> EndsWith(value, tail) { StarTail(rest, value); }
    }
  }

  /** A class cannot end in an inert tail. */
  lemma ClassEndsBefore(body: string, tail: string)
    requires Inert(tail) && ClassEnd(body + tail).Some?
    ensures ClassEnd(body + tail).value < |body|
  {
    var end := ClassEnd(body + tail).value;
    assert (body + tail)[end] == ']';
  }

  lemma EndsWithMore(c: char, value: string, tail: string)
    requires EndsWith(value, tail)
    ensures EndsWith([c] + value, tail)
  {
    assert ([c] + value)[|value| + 1 - |tail|..] == value[|value| - |tail|..];
  }

  /** Behind the class at the front of a pattern with an inert tail, the tail is still there. */
  lemma ClassThenTail(head: string, tail: string)
    requires Inert(tail) && ClassEnd(head + tail).Some?
    ensures var end := ClassEnd(head + tail).value;
      end < |head| && (head + tail)[end + 1..] == head[end + 1..] + tail
  {
    ClassEndsBefore(head, tail);
  }

  lemma TailOfRest(value: string, tail: string)
    requires value != "" && EndsWith(value[1..], tail)
    ensures EndsWith(value, tail)
  {
    EndsWithMore(value[0], value[1..], tail);
    assert value == [value[0]] + value[1..];
  }

  /** Whatever a pattern with an inert tail matches ends in that tail. */
  lemma {:induction false} TailKept(head: string, tail: string, value: string)
    requires Inert(tail) && Matches(head + tail, value)
    ensures EndsWith(value, tail)
    decreases |head| + |value|
  {
    var p := head + tail;
    if head == "" {
      assert p == tail;
      LiteralMatches(tail, value);
    } else {
      assert p[0] == head[0] && p[1..] == head[1..] + tail;
      if head[0] == '*' && Matches(head[1..] + tail, value) {
        TailKept(head[1..], tail, value);
      } else {
        if head[0] == '*' {
          TailKept(head, tail, value[1..]);
        } else if head[0] == '[' && ClassEnd(head[1..] + tail).Some? {
          ClassThenTail(head[1..], tail);
          TailKept(head[1..][ClassEnd(head[1..] + tail).value + 1..], tail, value[1..]);
        } else {
          TailKept(head[1..], tail, value[1..]);
        }
        TailOfRest(value, tail);
      }
    }
  }

  /** An open-ended parent contains every pattern it matches, classes and all. */
  lemma {:induction false} OpenEndedContainment(parent: string, child: string, value: string)
    requires StarOnly(parent) && OpenEnded(parent)
    requires Matches(parent, child) && Matches(child, value)
    ensures Matches(parent, value)
  {
    if parent != "" {
      assert parent[0] in parent;
      if parent[0] == '*' {
        var tail := OpenEndedIsTail(parent);
        var head := child[..|child| - |tail|];
        assert child == head + tail;
        TailKept(head, tail, value);
      } else {
        LiteralStep(parent, child);
        OpenEndedTail(parent);
        assert forall c :: c in parent[1..] ==> c in parent;
        OpenEndedContainment(parent[1..], child[1..], value[1..]);
      }
    }
  }

  // ---- every other parent lets a class escape ----

  lemma {:induction false} FindFirst(s: string, c: char, i: nat, k: nat)
    requires i <= k < |s| && s[k] == c && forall j :: i <= j < k ==> s[j] != c
    ensures FindFrom(s, c, i) == Some(k)
    decreases k - i
  {
    if i < k { FindFirst(s, c, i + 1, k); }
  }

  /** `prefix` matched as a string against itself, and then the rest. */
  lemma {:induction false} SamePrefix(prefix: string, pattern: string, value: string)
    requires StarOnly(prefix) && Matches(pattern, value)
    ensures Matches(prefix + pattern, prefix + value)
  {
    var p, v := prefix + pattern, prefix + value;
    if prefix == "" {
      assert p == pattern && v == value;
    } else {
      assert prefix[0] in prefix && p[1..] == prefix[1..] + pattern && v[1..] == prefix[1..] + value;
      SamePrefix(prefix[1..], pattern, value);
      if prefix[0] == '*' {
        StarStep(p, v[1..]);
        StarStep(p, v);
      } else {
        LiteralStep(p, v);
      }
    }
  }

  /** What a star or a literal character contributes when stars are left empty. */
  function Contribution(c: char): string {
    if c == '*' then "" else [c]
  }

  lemma OneMore(c: char, pattern: string, value: string)
    requires c != '?' && c != '[' && Matches(pattern, value)
    ensures Matches([c] + pattern, Contribution(c) + value)
  {
    assert ([c] + pattern)[1..] == pattern;
    if c == '*' {
      assert "" + value == value;
      StarStep([c] + pattern, value);
    } else {
      assert ([c] + value)[1..] == value;
      LiteralStep([c] + pattern, [c] + value);
    }
  }

  lemma PrefixParts(prefix: string, pattern: string, value: string)
    requires StarOnly(prefix) && prefix != ""
    ensures prefix[0] != '?' && prefix[0] != '[' && StarOnly(prefix[1..])
    ensures prefix + pattern == [prefix[0]] + (prefix[1..] + pattern)
    ensures Literals(prefix) + value == Contribution(prefix[0]) + (Literals(prefix[1..]) + value)
  {
    assert prefix[0] in prefix;
  }

  /** `prefix` with its stars left empty, and then the rest. */
  lemma {:induction false} LiteralPrefix(prefix: string, pattern: string, value: string)
    requires StarOnly(prefix) && Matches(pattern, value)
    ensures Matches(prefix + pattern, Literals(prefix) + value)
  {
    if prefix == "" {
      assert prefix + pattern == pattern && Literals(prefix) + value == value;
    } else {
      PrefixParts(prefix, pattern, value);
      LiteralPrefix(prefix[1..], pattern, value);
      OneMore(prefix[0], prefix[1..] + pattern, Literals(prefix[1..]) + value);
    }
  }

  lemma {:induction false} LiteralsOf(a: string, b: string)
    ensures Literals(a + b) == Literals(a) + Literals(b)
  {
    if a == "" {
      assert a + b == b;
    } else {
      assert (a + b)[1..] == a[1..] + b;
      LiteralsOf(a[1..], b);
    }
  }

  lemma {:induction false} LiteralsOfLiteral(s: string)
    requires '*' !in s && '?' !in s
    ensures Literals(s) == s
  {
    if s != "" {
      assert s[0] in s && s == [s[0]] + s[1..];
      LiteralsOfLiteral(s[1..]);
    }
  }

  /** A value no longer than the literal characters of the pattern is those characters. */
  lemma {:induction false} TightMatch(pattern: string, value: string)
    requires StarOnly(pattern) && Matches(pattern, value) && |value| <= |Literals(pattern)|
    ensures value == Literals(pattern)
    decreases |pattern| + |value|
  {
    if pattern != "" {
      assert pattern[0] in pattern;
      if pattern[0] == '*' {
        if Matches(pattern[1..], value) {
          TightMatch(pattern[1..], value);
        } else {
          TightMatch(pattern, value[1..]);
          assert false;
        }
      } else {
        TightMatch(pattern[1..], value[1..]);
        assert value == [value[0]] + value[1..];
      }
    }
  }

  /** The part of a parent that is not open-ended which a class can swallow: a piece behind a star. */
  ghost predicate Swallowable(parent: string, before: string, piece: string, rest: string) {
    && parent == before + ("*" + (piece + rest)) && piece != "" && '*' !in piece
    && (if rest == "" then ']' in piece else rest[0] == '*')
  }

  /** Characters up to the first star. */
  function Piece(s: string): (n: nat)
    ensures n <= |s| && '*' !in s[..n] && (n < |s| ==> s[n] == '*')
  {
    if s == "" || s[0] == '*' then 0
    else
      assert s[..1 + Piece(s[1..])] == [s[0]] + s[1..][..Piece(s[1..])];
      1 + Piece(s[1..])
  }

  /** The first piece of the tail can be swallowed. */
  predicate FirstSwallowable(tail: string) {
    Piece(tail) > 0 && (Piece(tail) < |tail| || ']' in tail)
  }

  lemma FirstPiece(tail: string)
    requires FirstSwallowable(tail)
    ensures Swallowable("*" + tail, "", tail[..Piece(tail)], tail[Piece(tail)..])
  {
    var piece, rest := tail[..Piece(tail)], tail[Piece(tail)..];
    assert tail == piece + rest && "*" + tail == "" + ("*" + (piece + rest));
    if rest == "" { assert piece == tail; }
  }

  lemma PieceBehind(c: char, tail: string, before: string, piece: string, rest: string)
    requires Swallowable(tail, before, piece, rest)
    ensures Swallowable([c] + tail, [c] + before, piece, rest)
  {
    assert [c] + tail == ([c] + before) + ("*" + (piece + rest));
  }

  /** Where the first piece cannot be swallowed, the reason not to be open-ended lies behind it. */
  lemma TailNotOpenEnded(parent: string)
    requires !OpenEnded(parent) && (parent == "" || parent[0] != '*' || !FirstSwallowable(parent[1..]))
    ensures parent != "" && !OpenEnded(parent[1..])
  {
    var t := parent[1..];
    var i, k :| 0 <= i < k < |parent| && parent[i] == '*' && parent[k] != '*' && (parent[k] == ']' || '*' in parent[k..]);
    assert t[k - 1] == parent[k] && t[k - 1..] == parent[k..];
    if i == 0 { StarFollows(t, k - 1); }
    var j := if i > 0 then i else 1;
    assert t[j - 1] == '*';
  }

  lemma StarFollows(tail: string, k: nat)
    requires k < |tail| && tail[k] != '*' && (tail[k] == ']' || '*' in tail[k..]) && !FirstSwallowable(tail)
    ensures 0 < k && tail[0] == '*'
  {
    assert tail[..|tail|] == tail && forall c :: c in tail[k..] ==> c in tail;
  }

  lemma {:induction false} HasSwallowable(parent: string) returns (before: string, piece: string, rest: string)
    requires !OpenEnded(parent)
    ensures Swallowable(parent, before, piece, rest)
  {
    var tail := if parent == "" then "" else parent[1..];
    if parent != "" && parent[0] == '*' && FirstSwallowable(tail) {
      before, piece, rest := "", tail[..Piece(tail)], tail[Piece(tail)..];
      FirstPiece(tail);
      assert parent == "*" + tail;
    } else {
      TailNotOpenEnded(parent);
      before, piece, rest := HasSwallowable(tail);
      PieceBehind(parent[0], tail, before, piece, rest);
      before := [parent[0]] + before;
      assert parent == [parent[0]] + tail;
    }
  }

  /** The class `[dd` ends at the first `]` of the text behind it. */
  lemma ClassEndsAt(d: char, text: string, rest: string, k: nat)
    requires d !in {'!', ']'} && k < |text| && text[k] == ']' && ']' !in text[..k]
    ensures ClassEnd([d, d] + (text + rest)) == Some(2 + k)
    ensures ([d, d] + (text + rest))[..2 + k] == [d, d] + text[..k]
    ensures ([d, d] + (text + rest))[2 + k + 1..] == text[k + 1..] + rest
  {
    var body := [d, d] + (text + rest);
    forall j | 0 <= j < 2 + k ensures body[j] != ']' {
      if j >= 2 { assert body[j] == text[j - 2] && text[j - 2] in text[..k]; }
    }
    assert body[2 + k] == text[k];
    FindFirst(body, ']', 0, 2 + k);
  }

  /** It takes one character, for the piece up to its end. */
  lemma ClassSwallows(d: char, text: string, rest: string, k: nat, value: string)
    requires d !in {'!', ']', '-'} && k < |text| && text[k] == ']' && ']' !in text[..k]
    requires Matches(text[k + 1..] + rest, value)
    ensures Matches("[" + ([d, d] + (text + rest)), [d] + value)
  {
    var p := "[" + ([d, d] + (text + rest));
    assert p[1..] == [d, d] + (text + rest) && ([d] + value)[1..] == value;
    ClassEndsAt(d, text, rest, k);
    DoubledInClass(d, text[..k]);
  }

  lemma DoubledInClass(d: char, more: string)
    requires d !in {'!', '-'}
    ensures InClass([d, d] + more, d)
  {
    var body := [d, d] + more;
    assert body[0] == d && body[1] == d;
  }

  lemma {:induction false} FirstBracket(piece: string) returns (k: nat)
    requires ']' in piece
    ensures k < |piece| && piece[k] == ']' && ']' !in piece[..k]
  {
    k := 0;
    while piece[k] != ']'
      invariant k < |piece| && ']' !in piece[..k] && ']' in piece[k..]
      decreases |piece| - k
    {
      assert piece[k..] == [piece[k]] + piece[k + 1..];
      assert piece[..k + 1] == piece[..k] + [piece[k]];
      k := k + 1;
    }
  }

  lemma EscapeIsMatched(d: char, before: string, piece: string, close: string, rest: string)
    requires StarOnly(before) && StarOnly(piece) && StarOnly(rest)
    requires close == "" || (close == "]" && rest != "" && rest[0] == '*')
    ensures Matches(before + ("*" + (piece + rest)), before + ("[" + ([d, d] + (piece + (close + rest)))))
  {
    var s := piece + (close + rest);
    SamePrefix(rest, "", "");
    assert rest + "" == rest;
    if close == "]" {
      assert (close + rest)[1..] == rest;
      StarStep(rest, close + rest);
    } else {
      assert close + rest == rest;
    }
    SamePrefix(piece, rest, close + rest);
    var star := "*" + (piece + rest);
    assert star[1..] == piece + rest;
    var x := [d] + s;
    var y := [d, d] + s;
    var z := "[" + y;
    assert x[1..] == s && y[1..] == x && z[1..] == y;
    StarStep(star, s);
    StarStep(star, x);
    StarStep(star, y);
    StarStep(star, z);
    SamePrefix(before, star, z);
  }

  /** How the class is closed, and what of the piece is left behind it. */
  lemma ClosedClass(piece: string) returns (close: string, k: nat)
    requires piece != "" && '*' !in piece && StarOnly(piece)
    ensures close == (if ']' in piece then "" else "]")
    ensures k < |piece + close| && (piece + close)[k] == ']' && ']' !in (piece + close)[..k]
    ensures var left := (piece + close)[k + 1..]; StarOnly(left) && '*' !in left && |left| < |piece|
  {
    close := if ']' in piece then "" else "]";
    var text := piece + close;
    assert ']' in text by { if close != "" { assert text[|piece|] == ']'; } }
    k := FirstBracket(text);
    assert forall c :: c in text[k + 1..] ==> c in text;
    if close == "]" {
      assert forall j :: 0 <= j < |piece| ==> text[j] == piece[j] && piece[j] in piece;
      assert k == |piece|;
    }
  }

  lemma EscapeMatches(d: char, before: string, piece: string, close: string, rest: string, k: nat)
    requires StarOnly(before) && StarOnly(rest) && d !in {'!', ']', '-'}
    requires k < |piece + close| && (piece + close)[k] == ']' && ']' !in (piece + close)[..k]
    requires var left := (piece + close)[k + 1..]; StarOnly(left) && '*' !in left
    ensures Matches(before + ("[" + ([d, d] + (piece + close + rest))),
                    Literals(before) + ([d] + ((piece + close)[k + 1..] + Literals(rest))))
  {
    var left := (piece + close)[k + 1..];
    LiteralPrefix(rest, "", "");
    assert rest + "" == rest && Literals(rest) + "" == Literals(rest);
    LiteralPrefix(left, rest, Literals(rest));
    LiteralsOfLiteral(left);
    ClassSwallows(d, piece + close, rest, k, left + Literals(rest));
    LiteralPrefix(before, "[" + ([d, d] + (piece + close + rest)), [d] + (left + Literals(rest)));
  }

  lemma PartsStarOnly(parent: string, before: string, piece: string, rest: string)
    requires StarOnly(parent) && parent == before + ("*" + (piece + rest))
    ensures StarOnly(before) && StarOnly(piece) && StarOnly(rest)
  {
    assert forall c :: c in before || c in piece || c in rest ==> c in parent;
  }

  /** A star-only parent that is not open-ended matches a child, with a class in it, that it does not contain. */
  lemma ClassEscapes(parent: string) returns (child: string, value: string)
    requires StarOnly(parent) && !OpenEnded(parent)
    ensures Matches(parent, child) && Matches(child, value) && !Matches(parent, value)
  {
    var before, piece, rest := HasSwallowable(parent);
    PartsStarOnly(parent, before, piece, rest);
    var close, k := ClosedClass(piece);
    child, value := EscapeOf(parent, before, piece, close, rest, k);
  }

  lemma EscapeOf(parent: string, before: string, piece: string, close: string, rest: string, k: nat)
    returns (child: string, value: string)
    requires StarOnly(parent) && StarOnly(before) && StarOnly(piece) && StarOnly(rest) && '*' !in piece && piece != ""
    requires parent == before + ("*" + (piece + rest))
    requires close == "" || (close == "]" && rest != "" && rest[0] == '*')
    requires k < |piece + close| && (piece + close)[k] == ']' && ']' !in (piece + close)[..k]
    requires var left := (piece + close)[k + 1..]; StarOnly(left) && '*' !in left && |left| < |piece|
    ensures Matches(parent, child) && Matches(child, value) && !Matches(parent, value)
  {
    var left := (piece + close)[k + 1..];
    var d := if piece[0] == 'a' then 'b' else 'a';
    child := before + ("[" + ([d, d] + (piece + close + rest)));
    value := Literals(before) + ([d] + (left + Literals(rest)));
    EscapeMatches(d, before, piece, close, rest, k);
    EscapeIsMatched(d, before, piece, close, rest);
    Associate(piece, close, rest);
    NotContained(parent, before, piece, rest, d, left);
  }

  lemma Associate(a: string, b: string, c: string)
    ensures a + b + c == a + (b + c)
  {
  }

  lemma LiteralsOfParts(before: string, piece: string, rest: string)
    requires '*' !in piece && '?' !in piece
    ensures Literals(before + ("*" + (piece + rest))) == Literals(before) + (piece + Literals(rest))
  {
    LiteralsOf(before, "*" + (piece + rest));
    LiteralsOf("*", piece + rest);
    assert Literals("*") == "";
    LiteralsOf(piece, rest);
    LiteralsOfLiteral(piece);
  }

  lemma NotContained(parent: string, before: string, piece: string, rest: string, d: char, left: string)
    requires StarOnly(parent) && parent == before + ("*" + (piece + rest)) && piece != "" && '*' !in piece && '?' !in piece
    requires d != piece[0] && |left| < |piece|
    ensures !Matches(parent, Literals(before) + ([d] + (left + Literals(rest))))
  {
    var a, b := Literals(before), Literals(rest);
    LiteralsOfParts(before, piece, rest);
    assert (a + ([d] + (left + b)))[|a|] == d && (a + (piece + b))[|a|] == piece[0];
    if Matches(parent, a + ([d] + (left + b))) { TightMatch(parent, a + ([d] + (left + b))); }
  }

  /**
   Over all children, classes included, a parent without classes contains what it
   matches exactly when it has no `?` and is open-ended.
   */
  lemma ContainmentOfAllChildren(parent: string)
    requires '[' !in parent
    ensures (forall child :: ContainsIfMatched(parent, child)) <==> '?' !in parent && OpenEnded(parent)
  {
    if '?' in parent {
      QuestionMarkEscapes(parent);
    } else if OpenEnded(parent) {
      forall child, value | Matches(parent, child) && Matches(child, value) ensures Matches(parent, value) {
        OpenEndedContainment(parent, child, value);
      }
    } else {
      var child, value := ClassEscapes(parent);
      assert !ContainsIfMatched(parent, child);
    }
  }

  /** A child and parent for which the check is sound: see `ContainmentOfPlainChildren` and `ContainmentOfAllChildren`. */
  predicate SoundlyChecked(parent: string, child: string) {
    StarOnly(parent) && ('[' !in child || OpenEnded(parent))
  }

  lemma SoundContainment(parent: string, child: string, value: string)
    requires SoundlyChecked(parent, child) && Matches(parent, child) && Matches(child, value)
    ensures Matches(parent, value)
  {
    if '[' !in child { Containment(parent, child, value); }
    else { OpenEndedContainment(parent, child, value); }
  }

  // ---- the browser verifier's matcher ----

  /** The characters a regular expression's `.` does not match. */
  predicate LineTerminator(c: char) {
    c == '\n' || c == '\r' || c == '\U{2028}' || c == '\U{2029}'
  }

  /** The anchored expression with `.*` for each star; every other character is literal. */
  predicate DotMatches(pattern: string, value: string)
    decreases |pattern| + |value|
  {
    if pattern == "" then value == ""
    else if pattern[0] == '*' then
      DotMatches(pattern[1..], value)
      || (value != "" && !LineTerminator(value[0]) && DotMatches(pattern, value[1..]))
    else value != "" && value[0] == pattern[0] && DotMatches(pattern[1..], value[1..])
  }

  /** `globMatch(pattern, value)` of the browser verifier. */
  predicate JsMatches(pattern: string, value: string) {
    pattern == "*" || DotMatches(pattern, value)
  }

  lemma {:induction false} DotMatchesAgree(pattern: string, value: string)
    requires StarOnly(pattern)
    ensures DotMatches(pattern, value) ==> Matches(pattern, value)
    ensures (forall c :: c in value ==> !LineTerminator(c)) ==> (Matches(pattern, value) ==> DotMatches(pattern, value))
    decreases |pattern| + |value|
  {
    if pattern != "" {
      assert pattern[0] in pattern;
      DotMatchesAgree(pattern[1..], value);
      if value != "" {
        assert value[0] in value;
        DotMatchesAgree(pattern, value[1..]);
        DotMatchesAgree(pattern[1..], value[1..]);
      }
    }
  }

  /** On star-only patterns the browser admits no more than Python, and as much on values of one line. */
  lemma MatchersAgree(pattern: string, value: string)
    requires StarOnly(pattern)
    ensures JsMatches(pattern, value) ==> Matches(pattern, value)
    ensures (forall c :: c in value ==> !LineTerminator(c)) ==> (Matches(pattern, value) <==> JsMatches(pattern, value))
  {
    StarMatches(value);
    DotMatchesAgree(pattern, value);
  }

  predicate OneLine(s: string) {
    forall c :: c in s ==> !LineTerminator(c)
  }

  lemma {:induction false} DoubleStarStops(value: string)
    ensures DotMatches("*", value) <==> OneLine(value)
    ensures DotMatches("**", value) <==> OneLine(value)
    ensures Matches("**", value)
  {
    assert "**"[1..] == "*" && "*"[1..] == "";
    StarMatches(value);
    if value != "" {
      DoubleStarStops(value[1..]);
      assert value == [value[0]] + value[1..];
      assert forall c :: c in value <==> c == value[0] || c in value[1..];
    }
  }

  /** The two matchers agree on a value, whatever the star-only pattern, exactly when it has no line break. */
  lemma MatchersAgreeExactly(value: string)
    ensures (forall pattern :: StarOnly(pattern) ==> (JsMatches(pattern, value) <==> Matches(pattern, value))) <==> OneLine(value)
  {
    if OneLine(value) {
      forall pattern | StarOnly(pattern) ensures JsMatches(pattern, value) <==> Matches(pattern, value) {
        MatchersAgree(pattern, value);
      }
    } else {
      DoubleStarStops(value);
      assert StarOnly("**") && JsMatches("**", value) == DotMatches("**", value);
    }
  }
}
