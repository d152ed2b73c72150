/**
 * The JavaScript string built-ins the name generator relies on (`trim`,
 * `toLowerCase`, `toUpperCase`, `charAt`, `slice` and `split(/\s+/)`),
 * restricted to ASCII: whitespace is the six ASCII characters that `\s`
 * and `trim` recognise, and case mapping changes only the letters A-Z and
 * a-z. Lengths are character counts, which agree with JavaScript's UTF-16
 * lengths on ASCII text.
 */
module Text {

  /** ASCII whitespace as `\s` and `String.prototype.trim` see it: space, tab, LF, VT, FF, CR. */
  predicate IsSpace(c: char) {
    c == ' ' || c == '\t' || c == '\n' || c == '\U{000B}' || c == '\U{000C}' || c == '\r'
  }

  predicate IsUpper(c: char) { 'A' <= c <= 'Z' }

  predicate IsLower(c: char) { 'a' <= c <= 'z' }

  predicate NoSpace(s: string) { forall i :: 0 <= i < |s| ==> !IsSpace(s[i]) }

  predicate AllSpace(s: string) { forall i :: 0 <= i < |s| ==> IsSpace(s[i]) }

  predicate NoUpper(s: string) { forall i :: 0 <= i < |s| ==> !IsUpper(s[i]) }

  /** `toLowerCase` on one character. */
  function LowerChar(c: char): (r: char)
    ensures !IsUpper(r)
    ensures !IsUpper(c) ==> r == c
    ensures IsUpper(c) ==> IsLower(r) && UpperChar(r) == c
  {
    if IsUpper(c) then (c as int - 'A' as int + 'a' as int) as char else c
  }

  /** `toUpperCase` on one character. */
  function UpperChar(c: char): (r: char)
    ensures !IsLower(r)
    ensures !IsLower(c) ==> r == c
  {
    if IsLower(c) then (c as int - 'a' as int + 'A' as int) as char else c
  }

  /** Lower-casing undoes upper-casing a lower-case letter. */
  lemma LowerOfUpper(c: char)
    ensures LowerChar(UpperChar(c)) == LowerChar(c)
  {
  }

  /** `String.prototype.toLowerCase`. */
  function ToLower(s: string): (r: string)
    ensures |r| == |s|
    ensures forall i :: 0 <= i < |s| ==> r[i] == LowerChar(s[i])
  {
    if s == [] then [] else [LowerChar(s[0])] + ToLower(s[1..])
  }

  /** `String.prototype.toUpperCase`. */
  function ToUpper(s: string): (r: string)
    ensures |r| == |s|
    ensures forall i :: 0 <= i < |s| ==> r[i] == UpperChar(s[i])
  {
    if s == [] then [] else [UpperChar(s[0])] + ToUpper(s[1..])
  }

  /** `String.prototype.charAt`: the one-character string at `i`, or "" past the end. */
  function CharAt(s: string, i: nat): (r: string)
    ensures |r| <= 1
    ensures r == [] <==> i >= |s|
    ensures i < |s| ==> r[0] == s[i]
  {
    if i < |s| then [s[i]] else ""
  }

  /** How `slice` reads an index: a negative one counts from the end; both are then clamped to `[0, len]`. */
  function SliceIndex(i: int, len: nat): (k: nat)
    ensures k <= len
    ensures 0 <= i <= len ==> k == i
    ensures i > len ==> k == len
    ensures i < 0 ==> k == if -i <= len then len + i else 0
  {
    if i < 0 then (if len + i < 0 then 0 else len + i) else if i < len then i else len
  }

  /** `s.slice(start, end)`. */
  function Slice(s: string, start: int, end: int): (r: string)
    ensures 0 <= start <= end <= |s| ==> r == s[start..end]
    ensures start == 0 && end >= 0 ==> r == s[..if end < |s| then end else |s|]
  {
    var a, b := SliceIndex(start, |s|), SliceIndex(end, |s|);
    if a < b then s[a..b] else []
  }

  /** `s.slice(start)`: always a suffix of `s`. */
  function SliceFrom(s: string, start: int): (r: string)
    ensures |r| <= |s| && r == s[|s| - |r|..]
    ensures 0 <= start <= |s| ==> |r| == |s| - start
    ensures start < 0 ==> |r| == if -start <= |s| then -start else |s|
  {
    s[SliceIndex(start, |s|)..]
  }

  /** `s.charAt(0).toUpperCase() + s.slice(1)`. */
  function Capitalize(s: string): (r: string)
    ensures |r| == |s|
    ensures r != [] ==> r[0] == UpperChar(s[0]) && r[1..] == s[1..]
  {
    ToUpper(CharAt(s, 0)) + SliceFrom(s, 1)
  }

  /**
   * Capitalising a string without upper-case letters leaves its first
   * character not lower-case and no later character upper-case.
   */
  lemma CapitalizeNoUpper(s: string)
    requires NoUpper(s)
    ensures var r := Capitalize(s);
      (r != [] ==> !IsLower(r[0])) && forall i :: 1 <= i < |r| ==> !IsUpper(r[i])
  {
    var r := Capitalize(s);
    forall i | 1 <= i < |r|
      ensures !IsUpper(r[i])
    {
      assert r[1..][i - 1] == s[1..][i - 1];
    }
  }

  /** Lower-casing a capitalised lower-case string gives it back. */
  lemma {:induction false} LowerOfCapitalized(s: string)
    ensures ToLower(Capitalize(ToLower(s))) == ToLower(s)
  {
    var c := Capitalize(ToLower(s));
    forall i | 0 <= i < |s|
      ensures ToLower(c)[i] == ToLower(s)[i]
    {
      if i == 0 {
        LowerOfUpper(ToLower(s)[0]);
      }
    }
  }

  /** `part` occurs in `s` starting at position `i`. */
  predicate OccursAt(s: string, part: string, i: nat) {
    i + |part| <= |s| && s[i..i + |part|] == part
  }

  /** `part` occurs in `s` as a contiguous run. */
  predicate Contains(s: string, part: string) {
    exists i: nat :: i <= |s| && OccursAt(s, part, i)
  }

  /** Lower-casing keeps an occurrence, lower-cased. */
  lemma ContainsLower(s: string, part: string, i: nat)
    requires OccursAt(s, part, i)
    ensures Contains(s, part)
    ensures OccursAt(ToLower(s), ToLower(part), i) && Contains(ToLower(s), ToLower(part))
  {
    var ls, lp := ToLower(s), ToLower(part);
    forall k | 0 <= k < |part|
      ensures ls[i + k] == lp[k]
    {
      assert s[i + k] == part[k];
    }
    assert ls[i..i + |part|] == lp;
    assert i <= |ls| && OccursAt(ls, lp, i);
  }

  /** The first non-whitespace position at or after `p`, or `|t|` when there is none. */
  function NonSpaceFrom(t: string, p: nat): (i: nat)
    requires p <= |t|
    ensures p <= i <= |t|
    ensures forall k :: p <= k < i ==> IsSpace(t[k])
    ensures i < |t| ==> !IsSpace(t[i])
    decreases |t| - p
  {
    if p == |t| || !IsSpace(t[p]) then p else NonSpaceFrom(t, p + 1)
  }

  /** The end of the last non-whitespace character before `e`, or 0 when there is none. */
  function NonSpaceBefore(t: string, e: nat): (i: nat)
    requires e <= |t|
    ensures i <= e
    ensures forall k :: i <= k < e ==> IsSpace(t[k])
    ensures i > 0 ==> !IsSpace(t[i - 1])
  {
    if e == 0 || !IsSpace(t[e - 1]) then e else NonSpaceBefore(t, e - 1)
  }

  /** `String.prototype.trim`: the part of `s` between its leading and its trailing whitespace. */
  function Trim(s: string): (r: string)
    ensures |r| <= |s|
    ensures r == [] <==> AllSpace(s)
    ensures r != [] ==> !IsSpace(r[0]) && !IsSpace(r[|r| - 1])
  {
    var a, b := NonSpaceFrom(s, 0), NonSpaceBefore(s, |s|);
    if a < b then s[a..b] else []
  }

  /** What `trim` removes is whitespace: the result sits in `s` between two runs of it. */
  lemma TrimIsMiddle(s: string)
    ensures exists a ::
      && 0 <= a <= |s| - |Trim(s)|
      && Trim(s) == s[a..a + |Trim(s)|]
      && AllSpace(s[..a]) && AllSpace(s[a + |Trim(s)|..])
  {
    var a, b := NonSpaceFrom(s, 0), NonSpaceBefore(s, |s|);
    if a < b {
      assert AllSpace(s[..a]) && AllSpace(s[b..]);
    } else {
      assert AllSpace(s[..|s|]) && AllSpace(s[|s|..]);
    }
  }

  /** Trimming a string that neither starts nor ends with whitespace leaves it as it is. */
  lemma TrimmedIsFixed(s: string)
    requires s == [] || (!IsSpace(s[0]) && !IsSpace(s[|s| - 1]))
    ensures Trim(s) == s
  {
  }

  /** The first whitespace position at or after `p`, or `|t|` when there is none. */
  function SpaceFrom(t: string, p: nat): (i: nat)
    requires p <= |t|
    ensures p <= i <= |t|
    ensures forall k :: p <= k < i ==> !IsSpace(t[k])
    ensures i < |t| ==> IsSpace(t[i])
    decreases |t| - p
  {
    if p == |t| || IsSpace(t[p]) then p else SpaceFrom(t, p + 1)
  }

  /**
   * The pieces of `t[p..]` as `split(/\s+/)` cuts them: a piece runs from `p`
   * to the next whitespace, the greedy `\s+` then swallows the whole run of
   * whitespace, and the next piece starts after it.
   */
  function SplitFrom(t: string, p: nat): (ws: seq<string>)
    requires p <= |t|
    ensures |ws| >= 1
    ensures forall k :: 0 <= k < |ws| ==> NoSpace(ws[k])
    decreases |t| - p
  {
    var i := SpaceFrom(t, p);
    if i == |t| then [t[p..]] else [t[p..i]] + SplitFrom(t, NonSpaceFrom(t, i + 1))
  }

  /**
   * `t.split(/\s+/)`. Like JavaScript it yields `[""]` for the empty string,
   * and an empty first (last) piece when `t` starts (ends) with whitespace.
   */
  function Split(t: string): (ws: seq<string>)
    ensures |ws| >= 1
    ensures forall k :: 0 <= k < |ws| ==> NoSpace(ws[k])
  {
    SplitFrom(t, 0)
  }

  function Last(ws: seq<string>): string
    requires |ws| >= 1
  {
    ws[|ws| - 1]
  }

  /** The first piece is the longest whitespace-free prefix of `t`; it is non-empty when `t` starts with a non-space. */
  lemma SplitFirst(t: string)
    ensures |Split(t)[0]| <= |t| && Split(t)[0] == t[..|Split(t)[0]|]
    ensures |Split(t)[0]| < |t| ==> IsSpace(t[|Split(t)[0]|])
    ensures t != [] && !IsSpace(t[0]) ==> Split(t)[0] != []
  {
  }

  /**
   * Where the last piece of `t[p..]` starts: `p` when `t[p..]` has no
   * whitespace, otherwise the start of the last piece after the first run of
   * whitespace. From there to the end there is no whitespace, and unless it
   * is `p` it comes right after whitespace.
   */
  function LastPieceStart(t: string, p: nat): (i: nat)
    requires p <= |t|
    ensures p <= i <= |t|
    ensures forall k :: i <= k < |t| ==> !IsSpace(t[k])
    ensures i > p ==> IsSpace(t[i - 1])
    decreases |t| - p
  {
    var i := SpaceFrom(t, p);
    if i == |t| then p
    else
      var q := NonSpaceFrom(t, i + 1);
      var r := LastPieceStart(t, q);
      assert r > p ==> IsSpace(t[r - 1]) by {
        if r == q && q - 1 > i {
          assert i + 1 <= q - 1 < q;
        }
      }
      r
  }

  /** Past the first piece, the last piece of `t[p..]` is that of the rest after the whitespace run. */
  lemma SplitFromLastStep(t: string, p: nat)
    requires p <= |t| && SpaceFrom(t, p) < |t|
    ensures Last(SplitFrom(t, p)) == Last(SplitFrom(t, NonSpaceFrom(t, SpaceFrom(t, p) + 1)))
  {
  }

  /** Without whitespace in `t[p..]`, it is the only piece. */
  lemma SplitFromSingle(t: string, p: nat)
    requires p <= |t| && SpaceFrom(t, p) == |t|
    ensures Last(SplitFrom(t, p)) == t[p..] && LastPieceStart(t, p) == p
  {
  }

  /** The last piece `split` gives for `t[p..]` runs from `LastPieceStart` to the end of `t`. */
  lemma {:induction false} SplitFromLast(t: string, p: nat)
    requires p <= |t|
    ensures Last(SplitFrom(t, p)) == t[LastPieceStart(t, p)..]
    decreases |t| - p
  {
    var i := SpaceFrom(t, p);
    if i < |t| {
      var q := NonSpaceFrom(t, i + 1);
      calc {
        Last(SplitFrom(t, p));
        { SplitFromLastStep(t, p); }
        Last(SplitFrom(t, q));
        { SplitFromLast(t, q); }
        t[LastPieceStart(t, q)..];
      }
    } else {
      SplitFromSingle(t, p);
    }
  }

  /** The last piece is the longest whitespace-free suffix of `t`; it is non-empty when `t` ends with a non-space. */
  lemma SplitLast(t: string)
    ensures |Last(Split(t))| <= |t| && Last(Split(t)) == t[|t| - |Last(Split(t))|..]
    ensures |Last(Split(t))| < |t| ==> IsSpace(t[|t| - |Last(Split(t))| - 1])
    ensures t != [] && !IsSpace(t[|t| - 1]) ==> Last(Split(t)) != []
  {
    SplitFromLast(t, 0);
  }
}
