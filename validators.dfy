/** Input normalisers and the regular-expression checks applied to labels,
    Base32 secrets and six-digit codes (src/validators.js). */
module Validators {
  import opened Wrappers
  import opened Js

  /** `String(input || '')` for a string option: null and undefined become "". */
  function TextOf(input: Option<string>): (r: string)
    ensures input.None? ==> r == ""
    ensures input.Some? ==> r == input.value
  {
    match input
    case None => ""
    case Some(s) => s
  }

  /** `normalizeCode`: the input text with surrounding whitespace trimmed. */
  function NormalizeCode(input: Option<string>): (r: string)
    ensures input.None? ==> r == ""
    ensures |r| <= |TextOf(input)|
  {
    Trim(TextOf(input))
  }

  /** The normalised code is the input less a whitespace prefix and a
      whitespace suffix, and neither starts nor ends with whitespace. */
  lemma NormalizeCodeShape(input: Option<string>)
    ensures exists i :: TrimmedAt(TextOf(input), NormalizeCode(input), i)
  {
    var t := TextOf(input);
    TrimShape(t);
    assert TrimmedAt(t, NormalizeCode(input), |t| - |TrimStart(t)|);
  }

  /** Normalising a normalised code changes nothing. */
  lemma NormalizeCodeIdempotent(input: Option<string>)
    ensures NormalizeCode(Some(NormalizeCode(input))) == NormalizeCode(input)
  {
    TrimIdempotent(TextOf(input));
  }

  // ---------------------------------------------------------------------------
  // normalizeSecret

  /** The characters of `s` that `keep` accepts, in order. */
  function Filter(s: string, keep: char -> bool): (r: string)
    ensures |r| <= |s|
  {
    if s == [] then ""
    else if keep(s[0]) then [s[0]] + Filter(s[1..], keep)
    else Filter(s[1..], keep)
  }

  /** Every character `Filter` keeps is accepted, and a character is kept
      exactly when it occurs in `s` and is accepted. */
  lemma {:induction false} FilterShape(s: string, keep: char -> bool)
    ensures forall i :: 0 <= i < |Filter(s, keep)| ==> keep(Filter(s, keep)[i])
    ensures forall c :: c in Filter(s, keep) <==> c in s && keep(c)
  {
    if s != [] {
      FilterShape(s[1..], keep);
      assert s == [s[0]] + s[1..];
    }
  }

  /** Filtering a string whose every character is kept returns it unchanged. */
  lemma {:induction false} FilterKeepsAll(s: string, keep: char -> bool)
    requires forall i :: 0 <= i < |s| ==> keep(s[i])
    ensures Filter(s, keep) == s
  {
    if s != [] {
      FilterKeepsAll(s[1..], keep);
    }
  }

  predicate NotWhitespace(c: char) { !IsWhitespace(c) }

  predicate NotDash(c: char) { c != '-' }

  predicate IsLowerAscii(c: char) { 'a' <= c <= 'z' }

  /** `normalizeSecret`: upper-cased, with every whitespace character and every
      `-` removed. */
  function NormalizeSecret(input: Option<string>): (r: string)
    ensures |r| <= |TextOf(input)|
  {
    Filter(Filter(ToUpper(TextOf(input)), NotWhitespace), NotDash)
  }

  /** The normalised secret has no whitespace, no `-` and no lowercase ASCII
      letter; nothing else is dropped, and only letters change case. */
  lemma NormalizeSecretShape(input: Option<string>)
    ensures var r := NormalizeSecret(input);
      forall i :: 0 <= i < |r| ==> !IsWhitespace(r[i]) && r[i] != '-' && !IsLowerAscii(r[i])
    ensures forall c :: c in NormalizeSecret(input) <==>
      exists j :: 0 <= j < |TextOf(input)| && UpperChar(TextOf(input)[j]) == c && !IsWhitespace(c) && c != '-'
  {
    var t := TextOf(input);
    var u := ToUpper(t);
    var w := Filter(u, NotWhitespace);
    var r := Filter(w, NotDash);
    ToUpperAt(t);
    FilterShape(u, NotWhitespace);
    FilterShape(w, NotDash);
    forall i | 0 <= i < |r| ensures !IsWhitespace(r[i]) && r[i] != '-' && !IsLowerAscii(r[i]) {
      assert r[i] in w;
      assert r[i] in u;
    }
    assert forall c :: c in u <==> exists j :: 0 <= j < |t| && UpperChar(t[j]) == c by {
      forall c | c in u ensures exists j :: 0 <= j < |t| && UpperChar(t[j]) == c {
        var j :| 0 <= j < |u| && u[j] == c;
      }
    }
  }

  /** Normalising a normalised secret changes nothing. */
  lemma NormalizeSecretIdempotent(input: Option<string>)
    ensures NormalizeSecret(Some(NormalizeSecret(input))) == NormalizeSecret(input)
  {
    var r := NormalizeSecret(input);
    NormalizeSecretShape(input);
    var u := ToUpper(r);
    ToUpperAt(r);
    assert u == r;
    FilterKeepsAll(r, NotWhitespace);
    FilterKeepsAll(r, NotDash);
  }

  // ---------------------------------------------------------------------------
  // Regular-expression checks

  /** Whether all of `s` matches `[cls]{min,max}`, scanning one character at a time. */
  function MatchRepeat(s: string, cls: char -> bool, min: nat, max: nat): (r: bool)
    ensures r <==> min <= |s| <= max && forall i :: 0 <= i < |s| ==> cls(s[i])
  {
    if s == [] then min == 0
    else
      max > 0 && cls(s[0]) && MatchRepeat(s[1..], cls, if min > 0 then min - 1 else 0, max - 1)
  }

  predicate IsBase32Char(c: char) { 'A' <= c <= 'Z' || '2' <= c <= '7' }

  predicate IsPad(c: char) { c == '=' }

  predicate IsLabelChar(c: char) { 'a' <= c <= 'z' || '0' <= c <= '9' || c == '_' || c == '-' }

  /** The length of the longest run of Base32 characters `s` starts with. */
  function Base32Run(s: string): (k: nat)
    ensures k <= |s|
    ensures forall i :: 0 <= i < k ==> IsBase32Char(s[i])
    ensures k < |s| ==> !IsBase32Char(s[k])
  {
    if s != [] && IsBase32Char(s[0]) then 1 + Base32Run(s[1..]) else 0
  }

  /** `s` is `k >= 1` Base32 characters followed by nothing but `=`. */
  predicate Base32SplitAt(s: string, k: int)
  {
    && 1 <= k <= |s|
    && (forall i :: 0 <= i < k ==> IsBase32Char(s[i]))
    && (forall i :: k <= i < |s| ==> s[i] == '=')
  }

  /** The only place a Base32 string can split is the end of its Base32 run. */
  lemma {:induction false} Base32SplitIsRun(s: string, k: int)
    requires Base32SplitAt(s, k)
    ensures k == Base32Run(s)
  {
    assert IsBase32Char(s[0]);
    if k == 1 {
      assert |s| > 1 ==> s[1..][0] == '=';
    } else {
      Base32SplitIsRun(s[1..], k - 1);
    }
  }

  /** `isLikelyBase32`: `/^[A-Z2-7]+=*$/`, matched as the greedy engine does:
      take the Base32 run, then require padding to the end. It holds exactly
      when `s` splits into one or more Base32 characters followed by `=` only,
      so "" and all-padding strings are rejected. */
  function IsLikelyBase32(s: string): (r: bool)
    ensures r <==> exists k :: Base32SplitAt(s, k)
  {
    var k := Base32Run(s);
    var tail := s[k..];
    assert forall i :: k <= i < |s| ==> tail[i - k] == s[i];
    var r := k >= 1 && MatchRepeat(tail, IsPad, 0, |s|);
    assert r ==> Base32SplitAt(s, k);
    assert (exists j :: Base32SplitAt(s, j)) ==> r by {
      if j :| Base32SplitAt(s, j) {
        Base32SplitIsRun(s, j);
        assert forall i :: 0 <= i < |tail| ==> IsPad(tail[i]) by {
          forall i | 0 <= i < |tail| ensures IsPad(tail[i]) { assert tail[i] == s[k + i]; }
        }
      }
    }
    r
  }

  /** `isValidCodeFormat`: the trimmed input is exactly six ASCII digits. */
  function IsValidCodeFormat(input: Option<string>): (r: bool)
    ensures r <==>
      (|NormalizeCode(input)| == 6 && forall i :: 0 <= i < 6 ==> IsDigit(NormalizeCode(input)[i]))
  {
    MatchRepeat(NormalizeCode(input), IsDigit, 6, 6)
  }

  /** `isValidLabel`: 2 to 32 characters, each a lowercase ASCII letter, a digit,
      `_` or `-`. */
  function IsValidLabel(s: string): (r: bool)
    ensures r <==> 2 <= |s| <= 32 && forall i :: 0 <= i < |s| ==> IsLabelChar(s[i])
  {
    MatchRepeat(s, IsLabelChar, 2, 32)
  }

  /** How the command layer turns the `label` option into a label:
      `normalizeCode(...).toLowerCase()`. */
  function NormalizeLabel(input: Option<string>): (r: string)
    ensures input.None? ==> r == ""
    ensures |r| <= |TextOf(input)|
  {
    ToLower(NormalizeCode(input))
  }

  /** A valid label is a fixed point of the label normalisation, so a label
      that is saved can be named again in later commands. */
  lemma ValidLabelIsNormal(s: string)
    requires IsValidLabel(s)
    ensures NormalizeLabel(Some(s)) == s
  {
    assert !IsWhitespace(s[0]) && !IsWhitespace(s[|s| - 1]);
    assert TrimStart(s) == s;
    assert TrimEnd(s) == s;
    ToLowerAt(s);
    assert ToLower(s) == s;
  }

  /** A valid Base32 secret contains no `:`, the envelope field separator. */
  lemma Base32HasNoColon(s: string)
    requires IsLikelyBase32(s)
    ensures ':' !in s
  {
    var k :| Base32SplitAt(s, k);
    forall i | 0 <= i < |s| ensures s[i] != ':' {
      if i < k { assert IsBase32Char(s[i]); }
    }
  }
}
