/**
 * The two JavaScript string operations the translator applies to a phrase
 * before looking it up: `String.prototype.toLowerCase` and
 * `String.prototype.trim`.
 *
 * `trim` strips exactly the ECMAScript WhiteSpace and LineTerminator code
 * points from both ends; that set is finite and is written out in full.
 * `toLowerCase` is modelled on ASCII letters only: every other character is
 * left as it is, and the length never changes. JavaScript also lowers other
 * capitals, some into an ASCII letter (KELVIN SIGN into 'k') and some into
 * two code points (U+0130) or by context (capital sigma).
 */
module JsText {

  /** ECMAScript WhiteSpace (TAB, VT, FF, ZWNBSP and the Zs category) and LineTerminator (LF, CR, LS, PS). */
  const Whitespace: set<char> := {
    '\t', '\n', '\U{000B}', '\U{000C}', '\r', ' ', '\U{00A0}', '\U{1680}',
    '\U{2000}', '\U{2001}', '\U{2002}', '\U{2003}', '\U{2004}', '\U{2005}',
    '\U{2006}', '\U{2007}', '\U{2008}', '\U{2009}', '\U{200A}',
    '\U{2028}', '\U{2029}', '\U{202F}', '\U{205F}', '\U{3000}', '\U{FEFF}'
  }

  /** A character `trim` strips. */
  predicate IsWhitespace(c: char) {
    c in Whitespace
  }

  /** Every character of `s` is whitespace: exactly the strings `trim` turns into "". */
  predicate IsBlank(s: string) {
    forall i :: 0 <= i < |s| ==> IsWhitespace(s[i])
  }

  /** Drops the leading whitespace (see TrimStartSpec). */
  function TrimStart(s: string): (r: string)
    ensures |r| <= |s|
  {
    if |s| > 0 && IsWhitespace(s[0]) then TrimStart(s[1..]) else s
  }

  /** Drops the trailing whitespace (see TrimEndSpec). */
  function TrimEnd(s: string): (r: string)
    ensures |r| <= |s|
  {
    if |s| > 0 && IsWhitespace(s[|s| - 1]) then TrimEnd(s[..|s| - 1]) else s
  }

  /** `TrimStart` leaves a suffix of `s`: it removes only whitespace, and all of the leading whitespace. */
  lemma {:induction false} TrimStartSpec(s: string)
    ensures var r := TrimStart(s); r == s[|s| - |r|..] && (r == [] || !IsWhitespace(r[0])) && IsBlank(s[..|s| - |r|])
    decreases |s|
  {
    if |s| > 0 && IsWhitespace(s[0]) {
      TrimStartSpec(s[1..]);
      var k := |s| - |TrimStart(s)|;
      forall i | 0 <= i < k ensures IsWhitespace(s[..k][i]) {
        if i > 0 {
          assert s[..k][i] == s[1..][..k - 1][i - 1];
        }
      }
    }
  }

  /** `TrimEnd` leaves a prefix of `s`: it removes only whitespace, and all of the trailing whitespace. */
  lemma {:induction false} TrimEndSpec(s: string)
    ensures var r := TrimEnd(s); r == s[..|r|] && (r == [] || !IsWhitespace(r[|r| - 1])) && IsBlank(s[|r|..])
    decreases |s|
  {
    if |s| > 0 && IsWhitespace(s[|s| - 1]) {
      var init := s[..|s| - 1];
      TrimEndSpec(init);
      var k := |TrimEnd(s)|;
      forall i | k <= i < |s| ensures IsWhitespace(s[i]) {
        if i < |s| - 1 {
          assert init[k..][i - k] == s[i];
        }
      }
    }
  }

  /** `s.trim()`: neither end of the result is whitespace, and the result is empty exactly when `s` is blank. */
  function Trim(s: string): (r: string)
    ensures |r| <= |s|
    ensures r == [] || (!IsWhitespace(r[0]) && !IsWhitespace(r[|r| - 1]))
    ensures r == [] <==> IsBlank(s)
  {
    TrimBothEmptyIffBlank(s);
    TrimBothEnds(s);
    TrimEnd(TrimStart(s))
  }

  /** `TrimStart` leaves nothing exactly when every character is whitespace. */
  lemma {:induction false} TrimStartEmptyIffBlank(s: string)
    ensures TrimStart(s) == [] <==> IsBlank(s)
    decreases |s|
  {
    if |s| > 0 && IsWhitespace(s[0]) {
      TrimStartEmptyIffBlank(s[1..]);
      assert forall j :: 0 < j < |s| ==> s[j] == s[1..][j - 1];
    }
  }

  /** `TrimEnd` keeps a string whose first character is not whitespace non-empty, with that first character. */
  lemma {:induction false} TrimEndKeepsHead(s: string)
    requires s != [] && !IsWhitespace(s[0])
    ensures TrimEnd(s) != [] && TrimEnd(s)[0] == s[0]
    decreases |s|
  {
    if IsWhitespace(s[|s| - 1]) {
      TrimEndKeepsHead(s[..|s| - 1]);
    }
  }

  /** Both halves of `trim` together leave nothing exactly when every character is whitespace. */
  lemma TrimBothEmptyIffBlank(s: string)
    ensures TrimEnd(TrimStart(s)) == [] <==> IsBlank(s)
  {
    TrimStartEmptyIffBlank(s);
    var front := TrimStart(s);
    if front != [] {
      TrimStartSpec(s);
      TrimEndKeepsHead(front);
    }
  }

  /** Whatever both halves of `trim` leave starts and ends with a non-whitespace character. */
  lemma TrimBothEnds(s: string)
    ensures var r := TrimEnd(TrimStart(s)); r == [] || (!IsWhitespace(r[0]) && !IsWhitespace(r[|r| - 1]))
  {
    var front := TrimStart(s);
    var r := TrimEnd(front);
    if r != [] {
      TrimStartSpec(s);
      TrimEndSpec(front);
      assert r[0] == front[0];
    }
  }

  /** `trim` removes a blank prefix and a blank suffix and keeps what lies between them unchanged. */
  lemma TrimRemovesBlankEnds(s: string)
    ensures exists i, j :: 0 <= i <= j <= |s| && Trim(s) == s[i..j] && IsBlank(s[..i]) && IsBlank(s[j..])
  {
    var front := TrimStart(s);
    var r := TrimEnd(front);
    TrimStartSpec(s);
    TrimEndSpec(front);
    var i := |s| - |front|;
    var j := i + |r|;
    assert s[i..j] == front[..|r|];
    assert s[j..] == front[|r|..];
    assert Trim(s) == s[i..j] && IsBlank(s[..i]) && IsBlank(s[j..]);
  }

  /** The ASCII part of `toLowerCase`: 'A'..'Z' become 'a'..'z', every other character is kept. */
  function LowerChar(c: char): (d: char)
    ensures 'A' <= c <= 'Z' ==> 'a' <= d <= 'z' && d as int - c as int == 32
    ensures !('A' <= c <= 'Z') ==> d == c
  {
    if 'A' <= c <= 'Z' then (c as int + 32) as char else c
  }

  /** `s.toLowerCase()` on ASCII letters: the same length, lowered character by character. */
  function ToLower(s: string): (r: string)
    ensures |r| == |s|
    ensures forall i :: 0 <= i < |s| ==> r[i] == LowerChar(s[i])
  {
    seq(|s|, i requires 0 <= i < |s| => LowerChar(s[i]))
  }

  /** The lookup key the translator builds: `text.toLowerCase().trim()`. It holds no ASCII capital,
      neither starts nor ends with whitespace, and is empty exactly when `s` is blank. */
  function Normalize(s: string): (r: string)
    ensures forall i :: 0 <= i < |r| ==> !('A' <= r[i] <= 'Z')
    ensures r == [] || (!IsWhitespace(r[0]) && !IsWhitespace(r[|r| - 1]))
    ensures r == [] <==> IsBlank(s)
  {
    LoweredTrimmed(s);
    Trim(ToLower(s))
  }

  /** Trimming a lowered string keeps it free of capitals, and it is blank exactly when the original is. */
  lemma LoweredTrimmed(s: string)
    ensures forall i :: 0 <= i < |Trim(ToLower(s))| ==> !('A' <= Trim(ToLower(s))[i] <= 'Z')
    ensures IsBlank(ToLower(s)) <==> IsBlank(s)
  {
    var lower := ToLower(s);
    TrimRemovesBlankEnds(lower);
    var i, j :| 0 <= i <= j <= |lower| && Trim(lower) == lower[i..j] && IsBlank(lower[..i]) && IsBlank(lower[j..]);
    forall k | 0 <= k < |s| ensures IsWhitespace(lower[k]) == IsWhitespace(s[k]) {
      LowerCharKeepsWhitespace(s[k]);
    }
  }

  /** Lowering twice is lowering once. */
  lemma ToLowerIdempotent(s: string)
    ensures ToLower(ToLower(s)) == ToLower(s)
  {
    assert forall i :: 0 <= i < |s| ==> LowerChar(LowerChar(s[i])) == LowerChar(s[i]);
  }

  /** Lowering never turns whitespace into something else or something else into whitespace. */
  lemma LowerCharKeepsWhitespace(c: char)
    ensures IsWhitespace(LowerChar(c)) == IsWhitespace(c)
  {
  }

  /** Lowering keeps the whitespace positions, so it commutes with both halves of `trim`. */
  lemma {:induction false} ToLowerTrimStart(s: string)
    ensures TrimStart(ToLower(s)) == ToLower(TrimStart(s))
    decreases |s|
  {
    if |s| > 0 {
      assert ToLower(s)[1..] == ToLower(s[1..]);
      LowerCharKeepsWhitespace(s[0]);
      if IsWhitespace(s[0]) {
        ToLowerTrimStart(s[1..]);
      }
    }
  }

  lemma {:induction false} ToLowerTrimEnd(s: string)
    ensures TrimEnd(ToLower(s)) == ToLower(TrimEnd(s))
    decreases |s|
  {
    if |s| > 0 {
      var init := s[..|s| - 1];
      assert ToLower(s)[..|s| - 1] == ToLower(init);
      LowerCharKeepsWhitespace(s[|s| - 1]);
      if IsWhitespace(s[|s| - 1]) {
        ToLowerTrimEnd(init);
      }
    }
  }

  /** `toLowerCase().trim()` and `trim().toLowerCase()` build the same key. */
  lemma ToLowerTrimCommute(s: string)
    ensures Normalize(s) == ToLower(Trim(s))
  {
    ToLowerTrimStart(s);
    ToLowerTrimEnd(TrimStart(s));
  }

  /** Leading blanks make no difference to `TrimStart`. */
  lemma {:induction false} TrimStartBlankPrefix(pre: string, s: string)
    requires IsBlank(pre)
    ensures TrimStart(pre + s) == TrimStart(s)
    decreases |pre|
  {
    if pre != [] {
      var w := pre + s;
      assert w[0] == pre[0] && IsWhitespace(pre[0]);
      assert w[1..] == pre[1..] + s;
      assert forall j :: 0 <= j < |pre| - 1 ==> pre[1..][j] == pre[j + 1];
      TrimStartBlankPrefix(pre[1..], s);
    } else {
      assert pre + s == s;
    }
  }

  /** Trailing blanks make no difference to `TrimEnd`. */
  lemma {:induction false} TrimEndBlankSuffix(s: string, post: string)
    requires IsBlank(post)
    ensures TrimEnd(s + post) == TrimEnd(s)
    decreases |post|
  {
    if post != [] {
      var init := post[..|post| - 1];
      assert (s + post)[|s + post| - 1] == post[|post| - 1] && IsWhitespace(post[|post| - 1]);
      assert TrimEnd(s + post) == TrimEnd((s + post)[..|s + post| - 1]);
      assert (s + post)[..|s + post| - 1] == s + init;
      assert IsBlank(init) by {
        forall i | 0 <= i < |init| ensures IsWhitespace(init[i]) {
          assert init[i] == post[i];
        }
      }
      TrimEndBlankSuffix(s, init);
    } else {
      assert s + post == s;
    }
  }

  /** Anything after a non-blank string rides along through `TrimStart`. */
  lemma {:induction false} TrimStartAppend(s: string, post: string)
    requires !IsBlank(s)
    ensures TrimStart(s + post) == TrimStart(s) + post
    decreases |s|
  {
    assert s != [];
    assert (s + post)[0] == s[0];
    if IsWhitespace(s[0]) {
      assert (s + post)[1..] == s[1..] + post;
      assert !IsBlank(s[1..]) by {
        var i :| 0 <= i < |s| && !IsWhitespace(s[i]);
        assert s[1..][i - 1] == s[i];
      }
      TrimStartAppend(s[1..], post);
    }
  }

  /** Surrounding whitespace never changes what `trim` returns. */
  lemma TrimIgnoresPadding(pre: string, s: string, post: string)
    requires IsBlank(pre) && IsBlank(post)
    ensures Trim(pre + s + post) == Trim(s)
  {
    assert pre + s + post == pre + (s + post);
    TrimStartBlankPrefix(pre, s + post);
    if IsBlank(s) {
      assert IsBlank(s + post);
      TrimStartEmptyIffBlank(s + post);
      TrimStartEmptyIffBlank(s);
    } else {
      TrimStartAppend(s, post);
      TrimEndBlankSuffix(TrimStart(s), post);
    }
  }

  /** Lowering distributes over concatenation. */
  lemma ToLowerAppend(a: string, b: string)
    ensures ToLower(a + b) == ToLower(a) + ToLower(b)
  {
    var w := a + b;
    forall i | 0 <= i < |w| ensures ToLower(w)[i] == (ToLower(a) + ToLower(b))[i] {
      if i >= |a| {
        assert w[i] == b[i - |a|];
      }
    }
  }

  /** Lowering a blank string leaves it blank. */
  lemma ToLowerBlank(s: string)
    requires IsBlank(s)
    ensures IsBlank(ToLower(s))
  {
    forall i | 0 <= i < |s| ensures IsWhitespace(ToLower(s)[i]) {
      LowerCharKeepsWhitespace(s[i]);
    }
  }

  /** Padding with whitespace and changing the case of letters give the same lookup key. */
  lemma NormalizeIgnoresCaseAndPadding(pre: string, s: string, t: string, post: string)
    requires IsBlank(pre) && IsBlank(post)
    requires ToLower(s) == ToLower(t)
    ensures Normalize(pre + t + post) == Normalize(s)
  {
    ToLowerAppend(pre, t);
    ToLowerAppend(pre + t, post);
    ToLowerBlank(pre);
    ToLowerBlank(post);
    TrimIgnoresPadding(ToLower(pre), ToLower(t), ToLower(post));
  }

  /** A key is already normal: normalising it again changes nothing. */
  lemma NormalizeIdempotent(s: string)
    ensures Normalize(Normalize(s)) == Normalize(s)
  {
    var k := Normalize(s);
    ToLowerTrimCommute(s);
    ToLowerIdempotent(Trim(s));
    assert ToLower(k) == k;
    if k != [] {
      var front := TrimStart(k);
      assert front == k;
      assert TrimEnd(k) == k;
    }
  }

  /** A string with no ASCII capital and no whitespace at either end is already a lookup key. */
  lemma NormalizeKeepsKey(s: string)
    requires forall i :: 0 <= i < |s| ==> !('A' <= s[i] <= 'Z')
    requires s == [] || (!IsWhitespace(s[0]) && !IsWhitespace(s[|s| - 1]))
    ensures Normalize(s) == s
  {
    var lower := ToLower(s);
    assert forall i :: 0 <= i < |s| ==> lower[i] == s[i];
    assert lower == s;
    assert TrimStart(s) == s;
    assert TrimEnd(s) == s;
  }

  /** "hello" is its own key. */
  lemma HelloKey()
    ensures Normalize("hello") == "hello"
  {
    NormalizeKeepsKey("hello");
  }

  /** "xyz unknown phrase" is its own key. */
  lemma UnknownPhraseKey()
    ensures Normalize("xyz unknown phrase") == "xyz unknown phrase"
  {
    NormalizeKeepsKey("xyz unknown phrase");
  }

  /** "Hello " has the key "hello": one capital and one trailing space. */
  lemma PaddedHelloKey()
    ensures Normalize("Hello ") == "hello"
  {
    HelloKey();
    assert ToLower("Hello") == "hello";
    assert IsBlank(" ");
    NormalizeIgnoresCaseAndPadding("", "hello", "Hello", " ");
    assert "" + "Hello" + " " == "Hello ";
  }

  /** "HELLO" has the key "hello". */
  lemma CapitalHelloKey()
    ensures Normalize("HELLO") == "hello"
  {
    var lower := ToLower("HELLO");
    assert |lower| == 5;
    assert lower[0] == 'h' && lower[1] == 'e' && lower[2] == 'l' && lower[3] == 'l' && lower[4] == 'o';
    assert lower == "hello";
    assert TrimStart("hello") == "hello";
    assert TrimEnd("hello") == "hello";
  }
}
