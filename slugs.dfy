/**
 Identifier normalisation for diagram blocks (bin/index.js, lines 167 and 183-192).

 A block's identifier is either the clock value read when the block is visited or the
 value already stored in its `data-mermaid` attribute. An identifier made only of
 decimal digits is used as it is; any other identifier is turned into a slug: every
 maximal run of characters outside [A-Za-z0-9] becomes one '-', then the whole string
 is lower-cased. The slug is what names the sidecar and image files.
 */
module Slugs {

  predicate IsDigit(c: char) { '0' <= c <= '9' }
  predicate IsUpper(c: char) { 'A' <= c <= 'Z' }
  predicate IsLower(c: char) { 'a' <= c <= 'z' }

  /** The class [A-Z0-9] under the case-insensitive flag: ASCII letters and digits. */
  predicate IsAlnum(c: char) { IsDigit(c) || IsUpper(c) || IsLower(c) }

  /** The characters a slug may contain: a-z, 0-9 and '-'. */
  predicate IsSlugChar(c: char) { IsLower(c) || IsDigit(c) || c == '-' }

  function ToLower(c: char): char
  {
    if IsUpper(c) then (c as int + 32) as char else c
  }

  /** `String.prototype.toLowerCase`, restricted to what matters here: ASCII upper case. */
  function LowerAll(s: string): string
  {
    seq(|s|, i requires 0 <= i < |s| => ToLower(s[i]))
  }

  /** `/^\d+$/.test(id)`: at least one character, all decimal digits. */
  predicate IsNumeric(s: string)
  {
    |s| > 0 && forall i :: 0 <= i < |s| ==> IsDigit(s[i])
  }

  /** No two adjacent '-' characters. */
  predicate NoDoubleDash(s: string)
  {
    forall i :: 0 <= i < |s| - 1 ==> !(s[i] == '-' && s[i + 1] == '-')
  }

  /** A string already in slug form: only a-z, 0-9, '-', and no "--". */
  predicate IsSlug(s: string)
  {
    (forall i :: 0 <= i < |s| ==> IsSlugChar(s[i])) && NoDoubleDash(s)
  }

  /** Drops the leading run of characters outside [A-Za-z0-9]. */
  function SkipRun(s: string): (r: string)
    ensures |r| <= |s|
    ensures r == [] || IsAlnum(r[0])
    ensures r == s[|s| - |r|..]
  {
    if s != [] && !IsAlnum(s[0]) then SkipRun(s[1..]) else s
  }

  /**
   `id.replace(/[^A-Z0-9]+/gi, "-")`: each maximal run of non-alphanumeric
   characters is replaced by a single '-'; alphanumeric characters are kept.
   */
  function ReplaceRuns(s: string): (r: string)
    ensures forall i :: 0 <= i < |r| ==> r[i] == '-' || IsAlnum(r[i])
    decreases |s|
  {
    if s == [] then []
    else if IsAlnum(s[0]) then [s[0]] + ReplaceRuns(s[1..])
    else "-" + ReplaceRuns(SkipRun(s[1..]))
  }

  /** The slug of a non-numeric identifier (line 191). */
  function Slug(s: string): string
  {
    LowerAll(ReplaceRuns(s))
  }

  /** Lines 190-192: a numeric identifier is kept, any other is slugged. */
  function NormalizeId(id: string): string
  {
    if IsNumeric(id) then id else Slug(id)
  }

  /** The decimal text of a clock value, as JavaScript prints a non-negative integer. */
  function DecimalString(n: nat): string
    decreases n
  {
    if n < 10 then [DigitChar(n)] else DecimalString(n / 10) + [DigitChar(n % 10)]
  }

  function DigitChar(d: nat): (c: char)
    requires d < 10
  {
    ('0' as int + d) as char
  }

  // ---------------------------------------------------------------------------
  // An independent description of the replacement: map every character outside
  // [A-Za-z0-9] to '-', then squeeze each run of '-' down to one.

  function DashEach(s: string): string
  {
    seq(|s|, i requires 0 <= i < |s| => if IsAlnum(s[i]) then s[i] else '-')
  }

  function Squeeze(t: string): string
    decreases |t|
  {
    if |t| <= 1 then t
    else if t[0] == '-' && t[1] == '-' then Squeeze(t[1..])
    else [t[0]] + Squeeze(t[1..])
  }

  // ---------------------------------------------------------------------------
  // Lemmas

  /** The clock value's text is numeric, so a fresh identifier is never slugged. */
  lemma {:induction false} DecimalStringIsNumeric(n: nat)
    ensures IsNumeric(DecimalString(n))
    decreases n
  {
    if n >= 10 {
      DecimalStringIsNumeric(n / 10);
    }
  }

  /** Squeezing a string whose first character is not '-' keeps that character. */
  lemma SqueezeCons(c: char, t: string)
    requires c != '-'
    ensures Squeeze([c] + t) == [c] + Squeeze(t)
  {
    if |t| > 0 {
      assert ([c] + t)[1..] == t;
    }
  }

  /** A run of non-alphanumeric characters after a '-' squeezes away. */
  lemma {:induction false} SqueezeSkipsRun(u: string)
    ensures Squeeze("-" + DashEach(u)) == Squeeze("-" + DashEach(SkipRun(u)))
    decreases |u|
  {
    if u != [] && !IsAlnum(u[0]) {
      assert DashEach(u) == "-" + DashEach(u[1..]);
      assert ("-" + DashEach(u))[1..] == "-" + DashEach(u[1..]);
      SqueezeSkipsRun(u[1..]);
    }
  }

  /** After the run is skipped, the '-' that replaced it is kept as is. */
  lemma SqueezeDashThenAlnum(v: string)
    requires v == [] || IsAlnum(v[0])
    ensures Squeeze("-" + DashEach(v)) == "-" + Squeeze(DashEach(v))
  {
    if v != [] {
      assert ("-" + DashEach(v))[1..] == DashEach(v);
    }
  }

  /**
   The replacement agrees with the independent description: dash every
   non-alphanumeric character, then collapse runs of dashes.
   */
  lemma {:induction false} ReplaceRunsIsSqueezedDashes(s: string)
    ensures ReplaceRuns(s) == Squeeze(DashEach(s))
    decreases |s|
  {
    if s == [] {
    } else if IsAlnum(s[0]) {
      assert DashEach(s) == [s[0]] + DashEach(s[1..]);
      SqueezeCons(s[0], DashEach(s[1..]));
      ReplaceRunsIsSqueezedDashes(s[1..]);
    } else {
      var u := s[1..];
      assert DashEach(s) == "-" + DashEach(u);
      SqueezeSkipsRun(u);
      SqueezeDashThenAlnum(SkipRun(u));
      ReplaceRunsIsSqueezedDashes(SkipRun(u));
    }
  }

  /** The replacement never starts with '-' when the input starts with a letter or digit. */
  lemma ReplaceRunsHead(s: string)
    requires s == [] || IsAlnum(s[0])
    ensures ReplaceRuns(s) == [] || IsAlnum(ReplaceRuns(s)[0])
  {
  }

  /** The replacement never produces two adjacent dashes. */
  lemma {:induction false} ReplaceRunsNoDoubleDash(s: string)
    ensures NoDoubleDash(ReplaceRuns(s))
    decreases |s|
  {
    if s == [] {
    } else if IsAlnum(s[0]) {
      ReplaceRunsNoDoubleDash(s[1..]);
      var r := ReplaceRuns(s);
      var t := ReplaceRuns(s[1..]);
      assert r == [s[0]] + t;
      forall i | 0 <= i < |r| - 1
        ensures !(r[i] == '-' && r[i + 1] == '-')
      {
        if i > 0 {
          assert r[i] == t[i - 1] && r[i + 1] == t[i];
        }
      }
    } else {
      var v := SkipRun(s[1..]);
      ReplaceRunsNoDoubleDash(v);
      ReplaceRunsHead(v);
      var r := ReplaceRuns(s);
      var t := ReplaceRuns(v);
      assert r == "-" + t;
      forall i | 0 <= i < |r| - 1
        ensures !(r[i] == '-' && r[i + 1] == '-')
      {
        if i > 0 {
          assert r[i] == t[i - 1] && r[i + 1] == t[i];
        }
      }
    }
  }

  /** A string of letters, digits and single dashes is left unchanged by the replacement. */
  lemma {:induction false} ReplaceRunsFixesClean(t: string)
    requires forall i :: 0 <= i < |t| ==> t[i] == '-' || IsAlnum(t[i])
    requires NoDoubleDash(t)
    ensures ReplaceRuns(t) == t
    decreases |t|
  {
    if t == [] {
    } else if IsAlnum(t[0]) {
      ReplaceRunsFixesClean(t[1..]);
      assert t == [t[0]] + t[1..];
    } else {
      var u := t[1..];
      assert u == [] || u[0] != '-';
      assert u == [] || IsAlnum(u[0]);
      assert SkipRun(u) == u;
      ReplaceRunsFixesClean(u);
      assert t == "-" + u;
    }
  }

  /** Slugs contain only a-z, 0-9 and '-', and never "--". */
  lemma SlugIsSlug(s: string)
    ensures IsSlug(Slug(s))
  {
    var r := ReplaceRuns(s);
    ReplaceRunsNoDoubleDash(s);
    var l := Slug(s);
    assert |l| == |r|;
    forall i | 0 <= i < |l|
      ensures IsSlugChar(l[i])
    {
      assert l[i] == ToLower(r[i]);
    }
    forall i | 0 <= i < |l| - 1
      ensures !(l[i] == '-' && l[i + 1] == '-')
    {
      assert l[i] == ToLower(r[i]) && l[i + 1] == ToLower(r[i + 1]);
    }
  }

  /** Slugging a slug changes nothing. */
  lemma SlugIdempotent(s: string)
    ensures Slug(Slug(s)) == Slug(s)
  {
    var t := Slug(s);
    SlugIsSlug(s);
    forall i | 0 <= i < |t|
      ensures t[i] == '-' || IsAlnum(t[i])
    {
      assert IsSlugChar(t[i]);
    }
    ReplaceRunsFixesClean(t);
    LowerAllFixesSlug(t);
  }

  /** Lower-casing a slug changes nothing. */
  lemma LowerAllFixesSlug(t: string)
    requires IsSlug(t)
    ensures LowerAll(t) == t
  {
    var l := LowerAll(t);
    forall i | 0 <= i < |t|
      ensures l[i] == t[i]
    {
      assert IsSlugChar(t[i]);
    }
  }

  /** A slug keeps the letters and digits of the identifier, lower-cased, in order. */
  lemma SlugOfAlnum(s: string)
    requires forall i :: 0 <= i < |s| ==> IsAlnum(s[i])
    ensures Slug(s) == LowerAll(s)
  {
    assert ReplaceRuns(s) == s by {
      ReplaceRunsFixesClean(s);
    }
  }

  /**
   The identifier used for file names: numeric identifiers are kept verbatim, every
   identifier becomes slug-safe, and normalising twice equals normalising once.
   */
  lemma NormalizeIdProperties(id: string)
    ensures IsNumeric(id) ==> NormalizeId(id) == id
    ensures !IsNumeric(id) ==> NormalizeId(id) == Slug(id)
    ensures IsSlug(NormalizeId(id))
    ensures NormalizeId(NormalizeId(id)) == NormalizeId(id)
  {
    if IsNumeric(id) {
      assert forall i :: 0 <= i < |id| ==> IsSlugChar(id[i]);
      assert NoDoubleDash(id);
    } else {
      SlugIsSlug(id);
      SlugIdempotent(id);
    }
  }
}
