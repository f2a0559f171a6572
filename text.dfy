/** String helpers of the crawler: lower-casing, the `\w+` word runs that
    `re.findall` returns, `str.strip`, `str.join` and the substring test `in`.
    Characters follow ASCII: a word character is a letter, a digit or `_`. */
module Text {

  // ---------------------------------------------------------------------------
  // Characters

  predicate IsWordChar(c: char)
  {
    'a' <= c <= 'z' || 'A' <= c <= 'Z' || '0' <= c <= '9' || c == '_'
  }

  predicate IsUpper(c: char)
  {
    'A' <= c <= 'Z'
  }

  function LowerChar(c: char): (r: char)
    ensures !IsUpper(r)
    ensures IsWordChar(r) == IsWordChar(c)
    ensures !IsUpper(c) ==> r == c
    ensures IsUpper(c) ==> 'a' <= r <= 'z' && r as int - 'a' as int == c as int - 'A' as int
  {
    if IsUpper(c) then (c as int + 32) as char else c
  }

  /** `str.isspace` as Python 3 defines it: the characters `str.strip()` removes. */
  predicate IsSpace(c: char)
  {
    || c == ' ' || '\t' <= c <= '\r' || '\U{1c}' <= c <= '\U{1f}'
    || c == '\U{85}' || c == '\U{a0}' || c == '\U{1680}'
    || '\U{2000}' <= c <= '\U{200a}' || c == '\U{2028}' || c == '\U{2029}'
    || c == '\U{202f}' || c == '\U{205f}' || c == '\U{3000}'
  }

  // ---------------------------------------------------------------------------
  // Lower-casing

  function Lower(s: string): (r: string)
    ensures |r| == |s|
    ensures forall i :: 0 <= i < |s| ==> r[i] == LowerChar(s[i])
  {
    seq(|s|, i requires 0 <= i < |s| => LowerChar(s[i]))
  }

  lemma LowerAround(a: string, c: char, b: string)
    ensures Lower(a + [c] + b) == Lower(a) + [LowerChar(c)] + Lower(b)
  {
    assert forall i :: 0 <= i < |a| + 1 + |b| ==>
      Lower(a + [c] + b)[i] == (Lower(a) + [LowerChar(c)] + Lower(b))[i];
  }

  // ---------------------------------------------------------------------------
  // Word runs: re.findall(r"\w+", s)

  predicate IsWord(w: string)
  {
    |w| > 0 && forall i :: 0 <= i < |w| ==> IsWordChar(w[i])
  }

  predicate NoUpper(w: string)
  {
    forall i :: 0 <= i < |w| ==> !IsUpper(w[i])
  }

  /** The run collected so far, as a list of zero or one words. */
  function Flush(cur: string): seq<string>
  {
    if cur == "" then [] else [cur]
  }

  /** Scans `s` left to right; `cur` is the word run in progress. */
  function Scan(s: string, cur: string): seq<string>
    decreases |s|
  {
    if s == [] then Flush(cur)
    else if IsWordChar(s[0]) then Scan(s[1..], cur + [s[0]])
    else Flush(cur) + Scan(s[1..], "")
  }

  /** The maximal runs of word characters of `s`, in order. */
  function FindWords(s: string): seq<string>
  {
    Scan(s, "")
  }

  /** `re.findall(r"\w+", text.lower())`, crawler.py lines 153 and 168. */
  function Tokens(text: string): seq<string>
  {
    FindWords(Lower(text))
  }

  /** Every run found is a non-empty word; if neither the input nor the run in
      progress holds an upper-case letter, no run does. */
  lemma {:induction false} ScanWellFormed(s: string, cur: string)
    requires cur == "" || IsWord(cur)
    ensures forall w :: w in Scan(s, cur) ==> IsWord(w)
    ensures NoUpper(s) && NoUpper(cur) ==> forall w :: w in Scan(s, cur) ==> NoUpper(w)
    decreases |s|
  {
    if s != [] {
      if IsWordChar(s[0]) {
        ScanWellFormed(s[1..], cur + [s[0]]);
      } else {
        ScanWellFormed(s[1..], "");
      }
    }
  }

  /** A separator ends the run in progress and splits the result. */
  lemma {:induction false} ScanSplit(a: string, c: char, b: string, cur: string)
    requires !IsWordChar(c)
    ensures Scan(a + [c] + b, cur) == Scan(a, cur) + Scan(b, "")
    decreases |a|
  {
    var s := a + [c] + b;
    if a == [] {
      assert s[0] == c && s[1..] == b;
    } else {
      assert s[0] == a[0] && s[1..] == a[1..] + [c] + b;
      if IsWordChar(a[0]) {
        ScanSplit(a[1..], c, b, cur + [a[0]]);
      } else {
        ScanSplit(a[1..], c, b, "");
      }
    }
  }

  /** An unbroken run of word characters is one token. */
  lemma {:induction false} ScanOfWord(w: string, cur: string)
    requires forall i :: 0 <= i < |w| ==> IsWordChar(w[i])
    requires cur + w != ""
    ensures Scan(w, cur) == [cur + w]
    decreases |w|
  {
    if w == [] {
      assert cur + w == cur;
    } else {
      assert cur + [w[0]] + w[1..] == cur + w;
      ScanOfWord(w[1..], cur + [w[0]]);
    }
  }

  /** The facts that pin `FindWords` down on every input: the empty text has
      no words, a word is found whole, and a separator splits the result. */
  lemma FindWordsCharacterized(w: string, a: string, c: char, b: string)
    requires !IsWordChar(c)
    ensures FindWords("") == []
    ensures IsWord(w) ==> FindWords(w) == [w]
    ensures FindWords(a + [c] + b) == FindWords(a) + FindWords(b)
  {
    if IsWord(w) {
      ScanOfWord(w, "");
      assert "" + w == w;
    }
    ScanSplit(a, c, b, "");
  }

  /** Tokens are non-empty runs of word characters, all lower-case. */
  lemma TokensWellFormed(text: string)
    ensures forall w :: w in Tokens(text) ==> IsWord(w) && NoUpper(w)
  {
    ScanWellFormed(Lower(text), "");
  }

  // ---------------------------------------------------------------------------
  // str.strip()

  // Trimming is stated for any set of characters to drop, `drop`; `Strip`
  // instantiates it with white space.

  /** The first position at or after `i` holding a character `drop` rejects,
      or `|s|`. */
  function SkipLeading(s: string, drop: char -> bool, i: nat): (j: nat)
    requires i <= |s|
    ensures i <= j <= |s|
    ensures forall k :: i <= k < j ==> drop(s[k])
    ensures j < |s| ==> !drop(s[j])
    decreases |s| - i
  {
    if i < |s| && drop(s[i]) then SkipLeading(s, drop, i + 1) else i
  }

  /** The end of `s[lo..j]` once characters `drop` accepts are cut from its back. */
  function SkipTrailing(s: string, drop: char -> bool, lo: nat, j: nat): (e: nat)
    requires lo <= j <= |s|
    ensures lo <= e <= j
    ensures forall k :: e <= k < j ==> drop(s[k])
    ensures e > lo ==> !drop(s[e - 1])
    decreases j
  {
    if j > lo && drop(s[j - 1]) then SkipTrailing(s, drop, lo, j - 1) else j
  }

  /** `s[i..i+n]` is what remains of `s` once the characters `drop` accepts are
      cut from both ends. */
  predicate StrippedAt(s: string, drop: char -> bool, i: nat, n: nat)
  {
    && i + n <= |s|
    && (forall k :: 0 <= k < i ==> drop(s[k]))
    && (forall k :: i + n <= k < |s| ==> drop(s[k]))
    && (n > 0 ==> !drop(s[i]) && !drop(s[i + n - 1]))
  }

  /** `s` without its leading and trailing characters that `drop` accepts. */
  function StripBy(s: string, drop: char -> bool): (r: string)
    ensures exists i: nat :: i + |r| <= |s| && r == s[i..i + |r|] && StrippedAt(s, drop, i, |r|)
  {
    var i := SkipLeading(s, drop, 0);
    var e := SkipTrailing(s, drop, i, |s|);
    assert StrippedAt(s, drop, i, e - i);
    s[i..e]
  }

  /** `s.strip()`: `s` without its leading and trailing white space. */
  function Strip(s: string): string
  {
    StripBy(s, IsSpace)
  }

  /** Stripping twice changes nothing, and a string strips to nothing exactly
      when all its characters are dropped. */
  lemma StripByProperties(s: string, drop: char -> bool)
    ensures StripBy(StripBy(s, drop), drop) == StripBy(s, drop)
    ensures StripBy(s, drop) == "" <==> forall k :: 0 <= k < |s| ==> drop(s[k])
  {
    var r := StripBy(s, drop);
    var i: nat :| i + |r| <= |s| && r == s[i..i + |r|] && StrippedAt(s, drop, i, |r|);
    if r != "" {
      assert r[0] == s[i] && r[|r| - 1] == s[i + |r| - 1];
      assert !drop(s[i]);
      assert SkipLeading(r, drop, 0) == 0;
      assert SkipTrailing(r, drop, 0, |r|) == |r|;
      assert r[0..|r|] == r;
    } else {
      forall k | 0 <= k < |s| ensures drop(s[k]) {
        if k >= i + |r| {
        } else {
          assert k < i;
        }
      }
    }
  }

  /** `str.strip()` is idempotent, and blank strings strip to nothing. */
  lemma StripProperties(s: string)
    ensures Strip(Strip(s)) == Strip(s)
    ensures Strip(s) == "" <==> forall k :: 0 <= k < |s| ==> IsSpace(s[k])
  {
    StripByProperties(s, IsSpace);
  }

  // ---------------------------------------------------------------------------
  // sep.join(parts)

  function JoinWith(sep: string, parts: seq<string>): string
    decreases |parts|
  {
    if parts == [] then ""
    else if |parts| == 1 then parts[0]
    else parts[0] + sep + JoinWith(sep, parts[1..])
  }

  /** The tokens of each part, one part after another. */
  function TokensOfAll(parts: seq<string>): seq<string>
    decreases |parts|
  {
    if parts == [] then [] else Tokens(parts[0]) + TokensOfAll(parts[1..])
  }

  /** Joining with a separator that is not a word character neither merges
      nor splits tokens: the tokens of the joined text are the tokens of the
      parts, in order. */
  lemma {:induction false} TokensOfJoin(c: char, parts: seq<string>)
    requires !IsWordChar(c)
    ensures Tokens(JoinWith([c], parts)) == TokensOfAll(parts)
    decreases |parts|
  {
    if parts == [] {
    } else if |parts| == 1 {
      assert TokensOfAll(parts[1..]) == [];
    } else {
      var rest := JoinWith([c], parts[1..]);
      assert JoinWith([c], parts) == parts[0] + [c] + rest;
      LowerAround(parts[0], c, rest);
      ScanSplit(Lower(parts[0]), LowerChar(c), Lower(rest), "");
      TokensOfJoin(c, parts[1..]);
    }
  }

  // ---------------------------------------------------------------------------
  // Substring test: `sub in s`

  predicate OccursAt(s: string, sub: string, i: nat)
  {
    i + |sub| <= |s| && s[i..i + |sub|] == sub
  }

  function Contains(s: string, sub: string): bool
    decreases |s|
  {
    (|sub| <= |s| && s[..|sub|] == sub) || (s != [] && Contains(s[1..], sub))
  }

  /** `Contains` holds exactly when `sub` occurs at some position of `s`. */
  lemma {:induction false} ContainsIff(s: string, sub: string)
    ensures Contains(s, sub) <==> exists i: nat :: OccursAt(s, sub, i)
    decreases |s|
  {
    if |sub| <= |s| && s[..|sub|] == sub {
      assert OccursAt(s, sub, 0);
    } else if s == [] {
    } else {
      ContainsIff(s[1..], sub);
      if exists i: nat :: OccursAt(s[1..], sub, i) {
        var i: nat :| OccursAt(s[1..], sub, i);
        assert s[i + 1..i + 1 + |sub|] == s[1..][i..i + |sub|];
        assert OccursAt(s, sub, i + 1);
      }
      if exists i: nat :: OccursAt(s, sub, i) {
        var i: nat :| OccursAt(s, sub, i);
        assert i != 0;
        assert s[1..][i - 1..i - 1 + |sub|] == s[i..i + |sub|];
        assert OccursAt(s[1..], sub, i - 1);
      }
    }
  }
}
