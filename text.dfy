/** The JavaScript string operations the generator uses: toLowerCase and
    toUpperCase (restricted to ASCII letters), includes/indexOf, endsWith,
    replace with a string pattern, split on a one-character separator, and
    join. Strings are sequences of characters. */
module Text {
  import opened Seqs

  predicate IsUpper(c: char) { 'A' <= c <= 'Z' }
  predicate IsLower(c: char) { 'a' <= c <= 'z' }

  /** toLowerCase on one character: only A-Z change. */
  function LowerChar(c: char): (r: char)
    ensures !IsUpper(r)
    ensures !IsUpper(c) ==> r == c
    ensures IsUpper(c) ==> IsLower(r) && UpperChar(r) == c
  {
    if IsUpper(c) then (c as int + 32) as char else c
  }

  /** toUpperCase on one character: only a-z change. */
  function UpperChar(c: char): (r: char)
    ensures !IsLower(r)
    ensures !IsLower(c) ==> r == c
  {
    if IsLower(c) then (c as int - 32) as char else c
  }

  /** String.prototype.toLowerCase, character by character. */
  function ToLower(s: string): (r: string)
    ensures |r| == |s|
  {
    seq(|s|, i requires 0 <= i < |s| => LowerChar(s[i]))
  }

  /** Lower-casing twice is lower-casing once. */
  lemma ToLowerIdempotent(s: string)
    ensures ToLower(ToLower(s)) == ToLower(s)
  {
    assert forall i :: 0 <= i < |s| ==> ToLower(ToLower(s))[i] == LowerChar(LowerChar(s[i]));
  }

  /** A string without upper-case letters is its own lower-case form. */
  lemma ToLowerOfLowerCase(s: string)
    requires forall i :: 0 <= i < |s| ==> !IsUpper(s[i])
    ensures ToLower(s) == s
  {
  }

  /** Lower-casing after upper-casing a character is lower-casing it. */
  lemma LowerOfUpper(c: char)
    ensures LowerChar(UpperChar(c)) == LowerChar(c)
  {
  }

  /** Lower-casing neither creates nor removes a character that has no case. */
  lemma ToLowerKeepsUncased(s: string, c: char)
    requires !IsUpper(c) && !IsLower(c)
    ensures c in ToLower(s) <==> c in s
  {
    if c in s {
      var i :| 0 <= i < |s| && s[i] == c;
      assert ToLower(s)[i] == c;
    }
    if c in ToLower(s) {
      var i :| 0 <= i < |s| && ToLower(s)[i] == c;
      assert s[i] == c;
    }
  }

  /** Character-by-character comparison of two strings of equal length from position `j` on. */
  predicate SameFrom(a: string, b: string, j: nat)
    requires |a| == |b| && j <= |a|
    decreases |a| - j
  {
    j == |a| || (a[j] == b[j] && SameFrom(a, b, j + 1))
  }

  /** String equality decided one character at a time. */
  predicate EqualText(a: string, b: string)
  {
    |a| == |b| && SameFrom(a, b, 0)
  }

  lemma {:induction false} SameFromIff(a: string, b: string, j: nat)
    requires |a| == |b| && j <= |a|
    ensures SameFrom(a, b, j) <==> a[j..] == b[j..]
    decreases |a| - j
  {
    if j < |a| {
      SameFromIff(a, b, j + 1);
      assert a[j..] == [a[j]] + a[j + 1..];
      assert b[j..] == [b[j]] + b[j + 1..];
    }
  }

  lemma EqualTextIff(a: string, b: string)
    ensures EqualText(a, b) <==> a == b
  {
    if |a| == |b| {
      SameFromIff(a, b, 0);
    }
  }

  /** `p` occurs in `s` starting at position `k`. */
  predicate OccursAt(s: string, p: string, k: nat)
  {
    k + |p| <= |s| && s[k..k + |p|] == p
  }

  /** String.prototype.endsWith. */
  predicate EndsWith(s: string, p: string)
    ensures EndsWith(s, p) <==> exists t :: s == t + p
  {
    assert |p| <= |s| ==> s == s[..|s| - |p|] + s[|s| - |p|..];
    |p| <= |s| && s[|s| - |p|..] == p
  }

  /** Character-by-character comparison: `p[j..]` appears in `s` at `k + j`. */
  predicate MatchesAt(s: string, p: string, k: nat, j: nat)
    requires k + |p| <= |s| && j <= |p|
    decreases |p| - j
  {
    j == |p| || (s[k + j] == p[j] && MatchesAt(s, p, k, j + 1))
  }

  lemma {:induction false} MatchesAtIff(s: string, p: string, k: nat, j: nat)
    requires k + |p| <= |s| && j <= |p|
    ensures MatchesAt(s, p, k, j) <==> s[k + j..k + |p|] == p[j..]
    decreases |p| - j
  {
    if j < |p| {
      MatchesAtIff(s, p, k, j + 1);
      assert s[k + j..k + |p|] == [s[k + j]] + s[k + j + 1..k + |p|];
      assert p[j..] == [p[j]] + p[j + 1..];
    }
  }

  /** The scan of String.prototype.indexOf from position `k` on. */
  function IndexOfFrom(s: string, p: string, k: nat): (r: Option<nat>)
    ensures r.Some? ==> k <= r.value && OccursAt(s, p, r.value) && forall m: nat :: k <= m < r.value ==> !OccursAt(s, p, m)
    ensures r.None? ==> forall m: nat :: k <= m ==> !OccursAt(s, p, m)
    decreases |s| - k
  {
    if k + |p| > |s| then None
    else
      MatchesAtIff(s, p, k, 0);
      if MatchesAt(s, p, k, 0) then Some(k) else IndexOfFrom(s, p, k + 1)
  }

  /** String.prototype.indexOf: the first position where `p` occurs (None for -1). */
  function IndexOf(s: string, p: string): (r: Option<nat>)
    ensures r.Some? ==> OccursAt(s, p, r.value) && forall k: nat :: k < r.value ==> !OccursAt(s, p, k)
    ensures r.None? ==> forall k: nat :: !OccursAt(s, p, k)
  {
    IndexOfFrom(s, p, 0)
  }

  /** String.prototype.includes. */
  predicate Includes(s: string, p: string)
    ensures Includes(s, p) <==> exists k: nat :: OccursAt(s, p, k)
  {
    IndexOf(s, p).Some?
  }

  /** An occurrence anywhere makes `includes` hold (the converse is IndexOf's contract). */
  lemma IncludesAt(s: string, p: string, k: nat)
    requires OccursAt(s, p, k)
    ensures Includes(s, p)
  {
  }

  /** The empty string includes only the empty pattern. */
  lemma IncludedByEmpty(p: string)
    ensures Includes("", p) <==> p == ""
  {
    if p == "" {
      assert OccursAt("", p, 0);
    }
  }

  /** Every character of an included pattern is a character of the string. */
  lemma IncludedCharsOccur(s: string, p: string, c: char)
    requires Includes(s, p) && c in p
    ensures c in s
  {
    var k := IndexOf(s, p).value;
    var j :| 0 <= j < |p| && p[j] == c;
    assert s[k..k + |p|][j] == s[k + j];
  }

  /** String.prototype.replace(p, ""): removes the FIRST occurrence of `p`,
      wherever it is; a string without `p` is returned unchanged. */
  function RemoveFirst(s: string, p: string): (r: string)
    ensures IndexOf(s, p).None? ==> r == s
    ensures IndexOf(s, p).Some? ==> |r| + |p| == |s|
    ensures forall k: nat :: OccursAt(s, p, k) && (forall m: nat :: m < k ==> !OccursAt(s, p, m)) ==> r == s[..k] + s[k + |p|..]
  {
    match IndexOf(s, p)
    case None => s
    case Some(k) => s[..k] + s[k + |p|..]
  }

  /** When the only occurrence of `p` is at the end, removing the first
      occurrence strips that suffix. */
  lemma RemoveFirstSuffix(s: string, p: string)
    requires EndsWith(s, p)
    requires forall k: nat :: k < |s| - |p| ==> !OccursAt(s, p, k)
    ensures RemoveFirst(s, p) == s[..|s| - |p|]
  {
    assert OccursAt(s, p, |s| - |p|);
  }

  /** Number of occurrences of the character `c` in `s`. */
  function CountChar(s: string, c: char): (r: nat)
    ensures r <= |s|
    ensures r == 0 <==> c !in s
  {
    if s == [] then 0 else (if s[0] == c then 1 else 0) + CountChar(s[1..], c)
  }

  /** String.prototype.split with a one-character separator and no limit. */
  function Split(s: string, sep: char): (r: seq<string>)
    ensures |r| == CountChar(s, sep) + 1
    ensures forall i :: 0 <= i < |r| ==> sep !in r[i]
  {
    if s == [] then [""]
    else
      var rest := Split(s[1..], sep);
      if s[0] == sep then [""] + rest
      else
        assert forall i :: 1 <= i < |rest| ==> ([[s[0]] + rest[0]] + rest[1..])[i] == rest[i];
        [[s[0]] + rest[0]] + rest[1..]
  }

  /** Two strings that have `x` and `y` at the same positions hold as many of each. */
  lemma {:induction false} CountCharPointwise(a: string, b: string, x: char, y: char)
    requires |a| == |b|
    requires forall i :: 0 <= i < |a| ==> (a[i] == x <==> b[i] == y)
    ensures CountChar(a, x) == CountChar(b, y)
  {
    if a != [] {
      assert forall i :: 0 <= i < |a| - 1 ==> a[1..][i] == a[i + 1] && b[1..][i] == b[i + 1];
      CountCharPointwise(a[1..], b[1..], x, y);
    }
  }

  /** Array.prototype.join with a one-character separator. */
  function Join(ws: seq<string>, sep: char): (r: string)
    ensures |ws| == 0 ==> r == ""
    ensures |ws| > 0 ==> |ws[0]| <= |r| && r[..|ws[0]|] == ws[0]
  {
    if |ws| == 0 then ""
    else if |ws| == 1 then ws[0]
    else ws[0] + [sep] + Join(ws[1..], sep)
  }

  /** Joining what `split` produced restores the string: the pieces lose no characters. */
  lemma {:induction false} JoinSplit(s: string, sep: char)
    ensures Join(Split(s, sep), sep) == s
  {
    if s != [] {
      JoinSplit(s[1..], sep);
      var rest := Split(s[1..], sep);
      assert Join(rest, sep) == s[1..];
      if s[0] == sep {
        assert Split(s, sep) == [""] + rest;
        assert ([""] + rest)[1..] == rest;
        assert Join([""] + rest, sep) == "" + [sep] + Join(rest, sep);
      } else {
        assert Split(s, sep) == [[s[0]] + rest[0]] + rest[1..];
        JoinConsFirst(s[0], rest[0], rest[1..], sep);
        assert [rest[0]] + rest[1..] == rest;
      }
      assert s == [s[0]] + s[1..];
    }
  }

  /** Prepending a character to the first word prepends it to the joined string. */
  lemma JoinConsFirst(c: char, w: string, ws: seq<string>, sep: char)
    ensures Join([[c] + w] + ws, sep) == [c] + Join([w] + ws, sep)
  {
    if |ws| > 0 {
      assert ([[c] + w] + ws)[1..] == ws;
      assert ([w] + ws)[1..] == ws;
    }
  }
}
