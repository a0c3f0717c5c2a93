/** String utilities of libicli (utils.c): the whitespace tokenizer
    `icli_utils_split_string` and `icli_utils_strdup_safe`.

    A C string is modelled as the characters before its terminating NUL, so
    it never contains '\0'. */
module Utils {
  import opened Wrappers
  import opened Errors

  /** The contents of a NUL-terminated C string. */
  type CString = s: string | '\0' !in s

  /** `isspace` in the C locale: space, tab, newline, vertical tab, form
      feed and carriage return. */
  predicate IsSpace(c: char) {
    c == ' ' || c == '\t' || c == '\n' || c == '\U{0B}' || c == '\U{0C}' || c == '\r'
  }

  /** A token: a non-empty run of characters none of which is white space. */
  predicate IsWord(t: string) {
    |t| > 0 && forall k :: 0 <= k < |t| ==> !IsSpace(t[k])
  }

  // ---------------------------------------------------------------------
  // Specification of the tokenizer

  /** Length of the longest prefix of `s` that holds no white space. */
  function WordLength(s: string): (n: nat)
    ensures n <= |s|
    ensures forall k :: 0 <= k < n ==> !IsSpace(s[k])
    ensures n < |s| ==> IsSpace(s[n])
  {
    if s == [] || IsSpace(s[0]) then 0 else 1 + WordLength(s[1..])
  }

  /** The tokens of a line: its maximal runs of non-white-space characters,
      left to right. */
  function Tokens(s: string): seq<string>
    decreases |s|
  {
    if s == [] then []
    else if IsSpace(s[0]) then Tokens(s[1..])
    else
      var n := WordLength(s);
      [s[..n]] + Tokens(s[n..])
  }

  /** A run start: a non-white-space character at the beginning of the line
      or right after a white-space character. */
  predicate IsRunStart(s: string, i: int)
    requires 0 <= i < |s|
  {
    !IsSpace(s[i]) && (i == 0 || IsSpace(s[i - 1]))
  }

  /** The number of run starts in `s`, counted from the right end. */
  function CountRuns(s: string): nat
    decreases |s|
  {
    if s == [] then 0
    else CountRuns(s[..|s| - 1]) + (if IsRunStart(s, |s| - 1) then 1 else 0)
  }

  /** `s` with every white-space character removed. */
  function RemoveSpaces(s: string): string
    decreases |s|
  {
    if s == [] then []
    else RemoveSpaces(s[..|s| - 1]) + (if IsSpace(s[|s| - 1]) then [] else [s[|s| - 1]])
  }

  /** The concatenation of a sequence of strings. */
  function Concat(ts: seq<string>): string
    decreases |ts|
  {
    if ts == [] then [] else Concat(ts[..|ts| - 1]) + ts[|ts| - 1]
  }

  // ---------------------------------------------------------------------
  // Properties of the specification

  /** The characterisation in WordLength's contract fixes its value. */
  lemma WordLengthUnique(s: string, n: nat)
    requires n <= |s|
    requires forall k :: 0 <= k < n ==> !IsSpace(s[k])
    requires n < |s| ==> IsSpace(s[n])
    ensures WordLength(s) == n
  {
  }

  /** Every token is non-empty and holds no white space. */
  lemma {:induction false} TokensAreWords(s: string)
    ensures forall j :: 0 <= j < |Tokens(s)| ==> IsWord(Tokens(s)[j])
    decreases |s|
  {
    if s == [] {
    } else if IsSpace(s[0]) {
      TokensAreWords(s[1..]);
    } else {
      var n := WordLength(s);
      TokensAreWords(s[n..]);
      assert Tokens(s) == [s[..n]] + Tokens(s[n..]);
    }
  }

  /** Appending a white-space character to a line leaves its tokens as
      they were. */
  lemma {:induction false} TokensSnocSpace(a: string, c: char)
    requires IsSpace(c)
    ensures Tokens(a + [c]) == Tokens(a)
    decreases |a|
  {
    var s := a + [c];
    if a == [] {
      assert Tokens(s) == Tokens(s[1..]);
    } else if IsSpace(a[0]) {
      assert s[1..] == a[1..] + [c];
      TokensSnocSpace(a[1..], c);
    } else {
      var n := WordLength(a);
      WordLengthUnique(s, n);
      assert s[..n] == a[..n];
      assert s[n..] == a[n..] + [c];
      TokensSnocSpace(a[n..], c);
    }
  }

  /** Appending a non-white-space character to a line that is empty or ends
      in white space opens a new token holding just that character. */
  lemma {:induction false} TokensSnocStart(a: string, c: char)
    requires !IsSpace(c)
    requires a == [] || IsSpace(a[|a| - 1])
    ensures Tokens(a + [c]) == Tokens(a) + [[c]]
    decreases |a|
  {
    var s := a + [c];
    if a == [] {
      WordLengthUnique(s, 1);
      assert s[..1] == [c] && s[1..] == [];
    } else if IsSpace(a[0]) {
      assert s[1..] == a[1..] + [c];
      assert a[1..] == [] || a[1..][|a[1..]| - 1] == a[|a| - 1];
      TokensSnocStart(a[1..], c);
    } else {
      var n := WordLength(a);
      assert n < |a|;
      WordLengthUnique(s, n);
      assert s[..n] == a[..n];
      assert s[n..] == a[n..] + [c];
      assert a[n..][|a[n..]| - 1] == a[|a| - 1];
      TokensSnocStart(a[n..], c);
    }
  }

  /** Appending a non-white-space character to a line that ends in a
      non-white-space character extends the last token by that character. */
  lemma {:induction false} TokensSnocExtend(a: string, c: char)
    requires !IsSpace(c)
    requires a != [] && !IsSpace(a[|a| - 1])
    ensures |Tokens(a)| > 0
    ensures Tokens(a + [c]) == Tokens(a)[..|Tokens(a)| - 1] + [Tokens(a)[|Tokens(a)| - 1] + [c]]
    decreases |a|
  {
    var s := a + [c];
    if IsSpace(a[0]) {
      assert s[1..] == a[1..] + [c];
      assert a[1..][|a[1..]| - 1] == a[|a| - 1];
      TokensSnocExtend(a[1..], c);
    } else {
      var n := WordLength(a);
      var ts := Tokens(a);
      assert ts == [a[..n]] + Tokens(a[n..]);
      if n < |a| {
        WordLengthUnique(s, n);
        assert s[..n] == a[..n];
        assert s[n..] == a[n..] + [c];
        assert a[n..][|a[n..]| - 1] == a[|a| - 1];
        TokensSnocExtend(a[n..], c);
      } else {
        assert a[..n] == a && a[n..] == [];
        WordLengthUnique(s, n + 1);
        assert s[..n + 1] == a + [c];
        assert s[n + 1..] == [];
      }
    }
  }

  /** How the tokens change when one character is appended to the line. */
  lemma TokensSnoc(a: string, c: char)
    ensures IsSpace(c) ==> Tokens(a + [c]) == Tokens(a)
    ensures !IsSpace(c) && (a == [] || IsSpace(a[|a| - 1])) ==>
              Tokens(a + [c]) == Tokens(a) + [[c]]
    ensures !IsSpace(c) && a != [] && !IsSpace(a[|a| - 1]) ==>
              |Tokens(a)| > 0 &&
              Tokens(a + [c]) == Tokens(a)[..|Tokens(a)| - 1] + [Tokens(a)[|Tokens(a)| - 1] + [c]]
  {
    if IsSpace(c) {
      TokensSnocSpace(a, c);
    } else if a == [] || IsSpace(a[|a| - 1]) {
      TokensSnocStart(a, c);
    } else {
      TokensSnocExtend(a, c);
    }
  }

  /** The number of tokens is the number of run starts. */
  lemma {:induction false} TokenCountIsRunCount(s: string)
    ensures |Tokens(s)| == CountRuns(s)
    decreases |s|
  {
    if s != [] {
      var a, c := s[..|s| - 1], s[|s| - 1];
      assert s == a + [c];
      TokenCountIsRunCount(a);
      TokensSnoc(a, c);
      if |s| > 1 {
        assert a[|a| - 1] == s[|s| - 2];
      }
    }
  }

  /** Counting run starts in a prefix never exceeds counting them in the
      whole line. */
  lemma {:induction false} CountRunsPrefix(s: string, i: nat)
    requires i <= |s|
    ensures CountRuns(s[..i]) <= CountRuns(s)
    decreases |s|
  {
    if i < |s| {
      var a := s[..|s| - 1];
      assert a[..i] == s[..i];
      CountRunsPrefix(a, i);
    } else {
      assert s[..i] == s;
    }
  }

  /** Concatenation extends by the string appended last. */
  lemma ConcatSnoc(ts: seq<string>, t: string)
    ensures Concat(ts + [t]) == Concat(ts) + t
  {
    assert (ts + [t])[..|ts|] == ts;
  }

  /** Extending the last string by one character extends the
      concatenation by that character. */
  lemma ConcatExtendLast(ts: seq<string>, c: char)
    requires |ts| > 0
    ensures Concat(ts[..|ts| - 1] + [ts[|ts| - 1] + [c]]) == Concat(ts) + [c]
  {
    var k := |ts|;
    ConcatSnoc(ts[..k - 1], ts[k - 1] + [c]);
    assert ts == ts[..k - 1] + [ts[k - 1]];
    ConcatSnoc(ts[..k - 1], ts[k - 1]);
  }

  /** Joining the tokens back together gives the line without its white
      space. */
  lemma {:induction false} TokensConcat(s: string)
    ensures Concat(Tokens(s)) == RemoveSpaces(s)
    decreases |s|
  {
    if s != [] {
      var a, c := s[..|s| - 1], s[|s| - 1];
      assert s == a + [c];
      TokensConcat(a);
      TokensSnoc(a, c);
      if !IsSpace(c) {
        if a == [] || IsSpace(a[|a| - 1]) {
          ConcatSnoc(Tokens(a), [c]);
        } else {
          ConcatExtendLast(Tokens(a), c);
        }
      }
    }
  }

  /** The tokens of a line that is empty or all white space, and only of
      such a line, are none. */
  lemma {:induction false} TokensEmptyIffBlank(s: string)
    ensures Tokens(s) == [] <==> forall k :: 0 <= k < |s| ==> IsSpace(s[k])
    decreases |s|
  {
    if s != [] {
      if IsSpace(s[0]) {
        TokensEmptyIffBlank(s[1..]);
        if !(forall k :: 0 <= k < |s| ==> IsSpace(s[k])) {
          var k :| 0 <= k < |s| && !IsSpace(s[k]);
          assert s[1..][k - 1] == s[k];
        }
      }
    }
  }

  /** Tokens of a concatenation split where the second part starts with
      white space. */
  lemma {:induction false} TokensSplit(a: string, b: string)
    requires b != [] && IsSpace(b[0])
    ensures Tokens(a + b) == Tokens(a) + Tokens(b)
    decreases |a|
  {
    var s := a + b;
    if a == [] {
      assert s == b;
    } else if IsSpace(a[0]) {
      assert s[1..] == a[1..] + b;
      TokensSplit(a[1..], b);
    } else {
      var n := WordLength(a);
      WordLengthUnique(s, n);
      assert s[..n] == a[..n];
      assert s[n..] == a[n..] + b;
      TokensSplit(a[n..], b);
    }
  }

  /** A single word is its own only token. */
  lemma WordTokens(w: string)
    requires IsWord(w)
    ensures Tokens(w) == [w]
  {
    WordLengthUnique(w, |w|);
    assert w[..|w|] == w;
    assert w[|w|..] == [];
  }

  /** A leading white-space character contributes no token. */
  lemma TokensSpaceFirst(c: char, b: string)
    requires IsSpace(c)
    ensures Tokens([c] + b) == Tokens(b)
  {
    assert ([c] + b)[1..] == b;
  }

  /** Blanks, then a word, then a part that is empty or starts with white
      space: the word is the first token and the rest follow. */
  lemma {:induction false} TokensOfSpacedWord(pre: string, w: string, rest: string)
    requires forall k :: 0 <= k < |pre| ==> IsSpace(pre[k])
    requires IsWord(w)
    requires rest == [] || IsSpace(rest[0])
    ensures Tokens(pre + w + rest) == [w] + Tokens(rest)
    decreases |pre|
  {
    if pre == [] {
      assert pre + w + rest == w + rest;
      WordTokens(w);
      if rest == [] {
        assert w + rest == w;
      } else {
        TokensSplit(w, rest);
      }
    } else {
      assert (pre + w + rest)[1..] == pre[1..] + w + rest;
      TokensOfSpacedWord(pre[1..], w, rest);
    }
  }

  // ---------------------------------------------------------------------
  // The tokenizer

  /** `icli_utils_split_string`. A NULL input yields no array and
      `ICLI_ERROR_NULL_POINTER`. Otherwise a first pass counts the run
      starts, and a line without any yields no array, a count of 0 and
      `ICLI_SUCCESS`; a second pass then copies each token into a fresh
      array of exactly that many slots, left to right. */
  method SplitString(input: Option<CString>) returns (argv: array?<string>, argc: nat, err: ErrorCode)
    ensures input.None? ==> argv == null && argc == 0 && err == NullPointer
    ensures input.Some? ==> err == Success && argc == |Tokens(input.value)|
    ensures argv == null <==> input.None? || argc == 0
    ensures argv != null ==> fresh(argv) && argv[..] == Tokens(input.value)
  {
    if input.None? {
      return null, 0, NullPointer;
    }
    var s := input.value;
    var count := CountTokens(s);
    TokenCountIsRunCount(s);
    if count == 0 {
      return null, 0, Success;
    }
    var tokens := new string[count];
    ExtractTokens(s, tokens);
    return tokens, count, Success;
  }

  /** The first pass of `icli_utils_split_string`: counts the places where a
      run of non-space characters starts. */
  method CountTokens(s: CString) returns (count: nat)
    ensures count == CountRuns(s)
  {
    count := 0;
    var inToken := false;
    var i := 0;
    while i < |s|
      invariant 0 <= i <= |s|
      invariant count == CountRuns(s[..i])
      invariant inToken <==> i > 0 && !IsSpace(s[i - 1])
    {
      assert s[..i + 1][..i] == s[..i];
      if IsSpace(s[i]) {
        inToken := false;
      } else if !inToken {
        inToken := true;
        count := count + 1;
      }
      i := i + 1;
    }
    assert s[..i] == s;
  }

  /** The second pass of `icli_utils_split_string`: copies each token, left
      to right, into the next slot of `tokens`; position `|s|` stands for
      the terminating NUL. */
  method ExtractTokens(s: CString, tokens: array<string>)
    requires tokens.Length == CountRuns(s)
    modifies tokens
    ensures tokens[..] == Tokens(s)
  {
    var tokenIdx := 0;
    var inToken := false;
    var tokenStart := 0;
    var i := 0;
    while true
      invariant 0 <= i <= |s|
      invariant 0 <= tokenIdx <= tokens.Length
      invariant inToken <==> i > 0 && !IsSpace(s[i - 1])
      invariant !inToken ==> tokens[..tokenIdx] == Tokens(s[..i])
      invariant inToken ==> 0 <= tokenStart < i &&
                            tokens[..tokenIdx] + [s[tokenStart..i]] == Tokens(s[..i])
      decreases |s| - i
    {
      var c := if i < |s| then s[i] else '\0';
      if c == '\0' || IsSpace(c) {
        if inToken {
          CountRunsPrefix(s, i);
          TokenCountIsRunCount(s[..i]);
          tokens[tokenIdx] := s[tokenStart..i];
          tokenIdx := tokenIdx + 1;
          inToken := false;
        }
        if c == '\0' {
          break;
        }
      } else if !inToken {
        tokenStart := i;
        inToken := true;
        assert s[tokenStart..i + 1] == [c];
      } else {
        assert s[tokenStart..i + 1] == s[tokenStart..i] + [c];
      }
      assert s[..i + 1] == s[..i] + [c];
      TokensSnoc(s[..i], c);
      i := i + 1;
    }
    assert s[..i] == s;
    TokenCountIsRunCount(s);
    assert tokens[..] == tokens[..tokenIdx];
  }

  /** `icli_utils_strdup_safe`: a NULL string yields nothing and
      `ICLI_ERROR_NULL_POINTER`; any other string yields an equal copy and
      `ICLI_SUCCESS`. */
  function StrdupSafe(str: Option<CString>): (r: (Option<CString>, ErrorCode))
    ensures r.0.None? <==> r.1 == NullPointer
    ensures r.1 == NullPointer <==> str.None?
    ensures r.1 == Success <==> r.0 == str && str.Some?
  {
    match str
    case None => (None, NullPointer)
    case Some(s) => (Some(s), Success)
  }
}
