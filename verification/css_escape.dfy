/**
 The CSS escaper `escape_for_css` (src/main.rs:298-330).

 The source is a chain of 31 literal `str::replace` calls. `EscapeChain`
 models that chain as written, rule by rule, and `Escape` is the reference
 definition: a per-character map that puts a backslash in front of every
 special character. `ApplyRulesEscapes` proves the two equal. The escape form
 relied on is the one of section 4.3.7 of CSS Syntax Module Level 3: a
 backslash followed by a code point that is not a hex digit or a newline stands
 for that code point; `Unescape` decodes it and undoes `Escape`.
 */
module CssEscape {
  import opened Wrappers
  import opened Text

  /** The characters the chain escapes, in the order of its replace calls. */
  const Specials: string := "\\!\"#$%&'()*+,-./:;<=>?@[]^`{|}~"

  predicate IsSpecial(c: char) {
    c in Specials
  }

  /** One `.replace(pattern, replacement)` call of the chain. */
  datatype Rule = Rule(pattern: string, replacement: string)

  /** The replace calls of `escape_for_css`, in source order. */
  const Chain: seq<Rule> := [
    Rule("\\", "\\\\"),
    Rule("!", "\\!"),
    Rule("\"", "\\\""),
    Rule("#", "\\#"),
    Rule("$", "\\$"),
    Rule("%", "\\%"),
    Rule("&", "\\&"),
    Rule("'", "\\'"),
    Rule("(", "\\("),
    Rule(")", "\\)"),
    Rule("*", "\\*"),
    Rule("+", "\\+"),
    Rule(",", "\\,"),
    Rule("-", "\\-"),
    Rule(".", "\\."),
    Rule("/", "\\/"),
    Rule(":", "\\:"),
    Rule(";", "\\;"),
    Rule("<", "\\<"),
    Rule("=", "\\="),
    Rule(">", "\\>"),
    Rule("?", "\\?"),
    Rule("@", "\\@"),
    Rule("[", "\\["),
    Rule("]", "\\]"),
    Rule("^", "\\^"),
    Rule("`", "\\`"),
    Rule("{", "\\{"),
    Rule("|", "\\|"),
    Rule("}", "\\}"),
    Rule("~", "\\~")
  ]

  /** Applies `rules` to `s` one after the other, first rule first. */
  function ApplyRules(s: string, rules: seq<Rule>): string
    decreases |rules|
  {
    if |rules| == 0 then s
    else
      var last := rules[|rules| - 1];
      ReplaceAll(ApplyRules(s, rules[..|rules| - 1]), last.pattern, last.replacement)
  }

  /** How `c` is written when the characters of `escaped` are the ones escaped. */
  function EscapeCharWith(c: char, escaped: string): string {
    if c in escaped then ['\\', c] else [c]
  }

  /** Every character of `s` mapped on its own: a backslash before each character of `escaped`. */
  function EscapeWith(s: string, escaped: string): string
    decreases |s|
  {
    if |s| == 0 then [] else EscapeCharWith(s[0], escaped) + EscapeWith(s[1..], escaped)
  }

  /** The reference escaper: a backslash before every special character, all else copied. */
  function Escape(s: string): string {
    EscapeWith(s, Specials)
  }

  /** `escape_for_css` as written: the chain of replace calls. It equals the per-character map. */
  function EscapeChain(s: string): (r: string)
    ensures r == Escape(s)
  {
    ChainEscapesSpecials();
    ApplyRulesEscapes(s, Chain, Specials);
    ApplyRules(s, Chain)
  }

  /**
   `rules` escapes the characters of `escaped` one by one, in that order: rule
   `i` puts a backslash before `escaped[i]`, no character is escaped twice and
   the backslash itself goes first.
   */
  ghost predicate EscapesInOrder(rules: seq<Rule>, escaped: string) {
    && |rules| == |escaped|
    && (forall i :: 0 <= i < |rules| ==> rules[i] == Rule([escaped[i]], ['\\', escaped[i]]))
    && (forall k :: 0 <= k < |escaped| ==> escaped[k] !in escaped[..k])
    && (|escaped| > 0 ==> escaped[0] == '\\')
  }

  /** The chain of `escape_for_css` escapes the special characters in order. */
  lemma ChainEscapesSpecials()
    ensures EscapesInOrder(Chain, Specials)
  {
    forall i | 0 <= i < |Chain| ensures Chain[i] == Rule([Specials[i]], ['\\', Specials[i]]) {
      ChainRuleShape(i);
    }
    forall k | 0 <= k < |Specials| ensures Specials[k] !in Specials[..k] {
      SpecialsDistinct(k);
    }
  }

  /** Rule `i` of the chain replaces the `i`-th special character by itself behind a backslash. */
  lemma ChainRuleShape(i: nat)
    requires i < |Chain|
    ensures |Chain| == |Specials|
    ensures Chain[i] == Rule([Specials[i]], ['\\', Specials[i]])
  {
  }

  /** No special character is listed twice, and the backslash comes first. */
  lemma SpecialsDistinct(k: nat)
    requires k < |Specials|
    ensures Specials[k] !in Specials[..k]
    ensures Specials[0] == '\\'
  {
  }

  /** A string with no escapes is mapped to itself. */
  lemma {:induction false} EscapeWithNothing(s: string)
    ensures EscapeWith(s, []) == s
    decreases |s|
  {
    if |s| > 0 {
      EscapeWithNothing(s[1..]);
      assert [s[0]] + s[1..] == s;
    }
  }

  /**
   One more rule of the chain: replacing `r` by `\r` in the map for `escaped`
   gives the map for `escaped + [r]`. This holds because the rule's character
   is not yet escaped, and, once anything is escaped, it is not the backslash
   that earlier rules inserted.
   */
  lemma {:induction false} ChainStep(s: string, escaped: string, r: char)
    requires r !in escaped
    requires |escaped| > 0 ==> r != '\\'
    ensures ReplaceAll(EscapeWith(s, escaped), [r], ['\\', r]) == EscapeWith(s, escaped + [r])
    decreases |s|
  {
    if |s| == 0 {
    } else {
      var c := s[0];
      var head := EscapeCharWith(c, escaped);
      ReplaceCharDistributes(head, EscapeWith(s[1..], escaped), r, ['\\', r]);
      ChainStep(s[1..], escaped, r);
      if c in escaped {
        assert head == ['\\'] + [c];
        ReplaceCharDistributes(['\\'], [c], r, ['\\', r]);
        ReplaceCharSingle('\\', r, ['\\', r]);
        ReplaceCharSingle(c, r, ['\\', r]);
        assert ReplaceAll(head, [r], ['\\', r]) == head;
      } else {
        ReplaceCharSingle(c, r, ['\\', r]);
      }
      assert ReplaceAll(head, [r], ['\\', r]) == EscapeCharWith(c, escaped + [r]);
    }
  }

  /**
   A chain of rules that escapes characters one at a time, backslash first,
   acts as the per-character map: no rule touches a backslash an earlier rule
   inserted.
   */
  lemma {:induction false} ApplyRulesEscapes(s: string, rules: seq<Rule>, escaped: string)
    requires EscapesInOrder(rules, escaped)
    ensures ApplyRules(s, rules) == EscapeWith(s, escaped)
    decreases |rules|
  {
    var n := |rules|;
    if n == 0 {
      EscapeWithNothing(s);
    } else {
      var r := escaped[n - 1];
      var done := escaped[..n - 1];
      var before := rules[..n - 1];
      assert EscapesInOrder(before, done) by {
        forall i | 0 <= i < |before| ensures before[i] == Rule([done[i]], ['\\', done[i]]) {
          assert before[i] == rules[i] && done[i] == escaped[i];
        }
        forall k | 0 <= k < |done| ensures done[k] !in done[..k] {
          assert done[..k] == escaped[..k];
          assert done[k] == escaped[k];
        }
      }
      ApplyRulesEscapes(s, before, done);
      assert rules[n - 1] == Rule([r], ['\\', r]);
      assert r !in done;
      if |done| > 0 {
        assert done[0] == '\\';
      }
      ChainStep(s, done, r);
      assert done + [r] == escaped;
    }
  }

  /** Number of special characters in `s`. */
  function CountSpecials(s: string): nat
    decreases |s|
  {
    if |s| == 0 then 0 else (if IsSpecial(s[0]) then 1 else 0) + CountSpecials(s[1..])
  }

  /** The map distributes over concatenation. */
  lemma {:induction false} EscapeAppend(a: string, b: string)
    ensures Escape(a + b) == Escape(a) + Escape(b)
    decreases |a|
  {
    if |a| > 0 {
      assert (a + b)[1..] == a[1..] + b;
      EscapeAppend(a[1..], b);
    } else {
      assert a + b == b;
    }
  }

  /** Each special character gains exactly one backslash; the output grows by their number. */
  lemma {:induction false} EscapeLength(s: string)
    ensures |Escape(s)| == |s| + CountSpecials(s)
    decreases |s|
  {
    if |s| > 0 {
      EscapeLength(s[1..]);
    }
  }

  /** A string without special characters is returned unchanged, and only such a string. */
  lemma {:induction false} EscapeIdentity(s: string)
    ensures Escape(s) == s <==> CountSpecials(s) == 0
    ensures CountSpecials(s) == 0 <==> forall i :: 0 <= i < |s| ==> !IsSpecial(s[i])
    decreases |s|
  {
    EscapeLength(s);
    if |s| > 0 {
      EscapeIdentity(s[1..]);
      if CountSpecials(s) == 0 {
        assert Escape(s) == [s[0]] + Escape(s[1..]);
        assert [s[0]] + s[1..] == s;
        forall i | 0 <= i < |s| ensures !IsSpecial(s[i]) {
          if i > 0 {
            assert s[i] == s[1..][i - 1];
          }
        }
      } else if !IsSpecial(s[0]) {
        var i :| 0 <= i < |s[1..]| && IsSpecial(s[1..][i]);
        assert IsSpecial(s[i + 1]);
      }
    }
  }

  /** Every character the escaper inserts is itself special, so the count doubles. */
  lemma {:induction false} EscapeCountDoubles(s: string)
    ensures CountSpecials(Escape(s)) == 2 * CountSpecials(s)
    decreases |s|
  {
    if |s| > 0 {
      var head := EscapeCharWith(s[0], Specials);
      EscapeCountDoubles(s[1..]);
      CountSpecialsAppend(head, Escape(s[1..]));
      if IsSpecial(s[0]) {
        assert head[1..] == [s[0]];
        assert head[1..][1..] == [];
      } else {
        assert head[1..] == [];
      }
    }
  }

  lemma {:induction false} CountSpecialsAppend(a: string, b: string)
    ensures CountSpecials(a + b) == CountSpecials(a) + CountSpecials(b)
    decreases |a|
  {
    if |a| > 0 {
      assert (a + b)[1..] == a[1..] + b;
      CountSpecialsAppend(a[1..], b);
    } else {
      assert a + b == b;
    }
  }

  /**
   Escaping is not idempotent: a second pass changes the string exactly when
   the input holds a special character, because the inserted backslash is
   itself special.
   */
  lemma EscapeTwice(s: string)
    ensures Escape(Escape(s)) == Escape(s) <==> forall i :: 0 <= i < |s| ==> !IsSpecial(s[i])
  {
    EscapeIdentity(s);
    EscapeIdentity(Escape(s));
    EscapeCountDoubles(s);
  }

  /** A special character escaped twice is three backslashes and the character. */
  lemma EscapeSpecialTwice(c: char)
    requires IsSpecial(c)
    ensures Escape(Escape([c])) == ['\\', '\\', '\\', c]
  {
    EscapeSingle(c);
    EscapeAppend(['\\'], [c]);
    assert ['\\', c] == ['\\'] + [c];
    EscapeSingle('\\');
  }

  /** The map on a one-character string. */
  lemma EscapeSingle(c: char)
    ensures Escape([c]) == if IsSpecial(c) then ['\\', c] else [c]
  {
    assert [c][1..] == [];
    assert EscapeWith([], Specials) == [];
  }

  predicate IsHexDigit(c: char) {
    '0' <= c <= '9' || 'a' <= c <= 'f' || 'A' <= c <= 'F'
  }

  /** Newlines in the sense of CSS Syntax Level 3 (line feed, carriage return, form feed). */
  predicate IsNewline(c: char) {
    c == '\n' || c == '\r' || c == '\U{000C}'
  }

  /**
   Decoding of backslash escapes in the form the escaper produces: a backslash
   followed by a code point that is neither a hex digit nor a newline stands for
   that code point. Hex escapes, escaped newlines and a trailing backslash are
   left out of this decoder and give None.
   */
  function Unescape(t: string): Option<string>
    decreases |t|
  {
    if |t| == 0 then Some([])
    else if t[0] == '\\' then
      if |t| == 1 || IsHexDigit(t[1]) || IsNewline(t[1]) then None
      else match Unescape(t[2..])
        case None => None
        case Some(u) => Some([t[1]] + u)
    else match Unescape(t[1..])
      case None => None
      case Some(u) => Some([t[0]] + u)
  }

  /** No special character is a hex digit or a newline, so each escape it receives is a plain one. */
  lemma SpecialsArePlainEscapes(c: char)
    requires IsSpecial(c)
    ensures !IsHexDigit(c) && !IsNewline(c)
  {
  }

  /** `Unescape` recovers the original string from the escaped one. */
  lemma {:induction false} EscapeRoundTrip(s: string)
    ensures Unescape(Escape(s)) == Some(s)
    decreases |s|
  {
    if |s| > 0 {
      var c := s[0];
      var rest := Escape(s[1..]);
      EscapeRoundTrip(s[1..]);
      if IsSpecial(c) {
        SpecialsArePlainEscapes(c);
        var t := ['\\', c] + rest;
        assert t[2..] == rest;
      } else {
        assert c != '\\';
        var t := [c] + rest;
        assert t[1..] == rest;
      }
      assert [c] + s[1..] == s;
    }
  }
}
