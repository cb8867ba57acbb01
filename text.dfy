/** The JavaScript string operations the backend relies on: `trim`,
    `toLowerCase`, `.length` (UTF-16 code units), `endsWith`, `includes`
    and `replace(/\s+/g, "")`. */
module Text {
  import opened Common

  /** JavaScript's white space and line terminators: what `trim` removes
      and what `\s` matches. */
  predicate IsSpace(c: char) {
    || c == '\t' || c == '\n' || c == '\U{000B}' || c == '\U{000C}' || c == '\r'
    || c == ' ' || c == '\U{00A0}' || c == '\U{1680}'
    || ('\U{2000}' <= c <= '\U{200A}')
    || c == '\U{2028}' || c == '\U{2029}' || c == '\U{202F}' || c == '\U{205F}'
    || c == '\U{3000}' || c == '\U{FEFF}'
  }

  function TrimStart(s: string): (r: string)
    ensures |r| <= |s| && r == s[|s| - |r|..]
    ensures r == [] || !IsSpace(r[0])
    ensures forall i :: 0 <= i < |s| - |r| ==> IsSpace(s[i])
  {
    if s != [] && IsSpace(s[0]) then TrimStart(s[1..]) else s
  }

  function TrimEnd(s: string): (r: string)
    ensures |r| <= |s| && r == s[..|r|]
    ensures r == [] || !IsSpace(r[|r| - 1])
    ensures forall i :: |r| <= i < |s| ==> IsSpace(s[i])
  {
    if s != [] && IsSpace(s[|s| - 1]) then TrimEnd(s[..|s| - 1]) else s
  }

  /** `String.prototype.trim`. */
  function Trim(s: string): string {
    TrimEnd(TrimStart(s))
  }

  /** No white space at either end. */
  predicate IsTrimmed(s: string) {
    s == [] || (!IsSpace(s[0]) && !IsSpace(s[|s| - 1]))
  }

  lemma TrimIsTrimmed(s: string)
    ensures IsTrimmed(Trim(s))
    ensures |Trim(s)| <= |s|
  {
    var a := TrimStart(s);
    var r := TrimEnd(a);
    if r != [] {
      assert r[0] == a[0];
    }
  }

  lemma {:induction false} TrimOfTrimmed(s: string)
    requires IsTrimmed(s)
    ensures Trim(s) == s
  {
    if s != [] {
      assert TrimStart(s) == s;
      assert TrimEnd(s) == s;
    }
  }

  /** Trimming twice is trimming once. */
  lemma TrimIdempotent(s: string)
    ensures Trim(Trim(s)) == Trim(s)
  {
    TrimIsTrimmed(s);
    TrimOfTrimmed(Trim(s));
  }

  /** `s.trim() === ""` holds exactly for strings made only of white space. */
  lemma {:induction false} TrimEmptyIffBlank(s: string)
    ensures Trim(s) == [] <==> forall i :: 0 <= i < |s| ==> IsSpace(s[i])
  {
    var a := TrimStart(s);
    if a != [] {
      assert !IsSpace(s[|s| - |a|]);
      assert TrimEnd(a) != [];
    }
  }

  function LowerChar(c: char): char {
    if 'A' <= c <= 'Z' then (c as int + 32) as char else c
  }

  /** `String.prototype.toLowerCase`, on the ASCII letters. */
  function ToLower(s: string): (r: string)
    ensures |r| == |s|
    ensures forall i :: 0 <= i < |s| ==> r[i] == LowerChar(s[i])
  {
    if s == [] then [] else [LowerChar(s[0])] + ToLower(s[1..])
  }

  lemma {:induction false} ToLowerIdempotent(s: string)
    ensures ToLower(ToLower(s)) == ToLower(s)
  {
    var l := ToLower(s);
    var ll := ToLower(l);
    assert forall i :: 0 <= i < |s| ==> ll[i] == l[i];
  }

  /** A string whose characters lowering leaves alone is left alone. */
  lemma ToLowerFixed(s: string)
    requires forall i :: 0 <= i < |s| ==> LowerChar(s[i]) == s[i]
    ensures ToLower(s) == s
  {
  }

  /** Every character of a lowered string is lower case already. */
  lemma LowerStable(s: string)
    ensures forall c :: c in ToLower(s) ==> LowerChar(c) == c
  {
    forall c | c in ToLower(s) ensures LowerChar(c) == c {
      var j :| 0 <= j < |s| && ToLower(s)[j] == c;
    }
  }

  /** The positions of the characters outside the Basic Multilingual Plane,
      which JavaScript stores as two UTF-16 code units. */
  function AstralPositions(s: string): (p: set<nat>)
    ensures forall i :: i in p ==> i < |s|
  {
    set i: nat | i < |s| && s[i] as int >= 0x1_0000
  }

  /** A set of positions below `n` has at most `n` members. */
  lemma {:induction false} PositionsBounded(p: set<nat>, n: nat)
    requires forall i :: i in p ==> i < n
    ensures |p| <= n
  {
    if n == 0 {
      assert p == {};
    } else {
      PositionsBounded(p - {n - 1}, n - 1);
    }
  }

  /** `s.length`: the number of UTF-16 code units, two for a character
      outside the Basic Multilingual Plane. */
  function JsLength(s: string): (n: nat)
    ensures |s| <= n <= 2 * |s|
  {
    PositionsBounded(AstralPositions(s), |s|);
    |s| + |AstralPositions(s)|
  }

  /** `s.replace(/\s+/g, "")`. */
  function RemoveSpaces(s: string): (r: string)
    ensures |r| <= |s|
    ensures forall i :: 0 <= i < |r| ==> !IsSpace(r[i])
    ensures forall c :: c in r ==> c in s
    ensures (forall i :: 0 <= i < |s| ==> !IsSpace(s[i])) ==> r == s
  {
    if s == [] then []
    else if IsSpace(s[0]) then RemoveSpaces(s[1..])
    else [s[0]] + RemoveSpaces(s[1..])
  }

  /** `s.endsWith(suffix)`. */
  predicate EndsWith(s: string, suffix: string) {
    |suffix| <= |s| && s[|s| - |suffix|..] == suffix
  }

  /** `s.includes(sub)`. */
  predicate Includes(s: string, sub: string)
    decreases |s|
  {
    (|sub| <= |s| && s[..|sub|] == sub) || (s != [] && Includes(s[1..], sub))
  }

  lemma {:induction false} IncludesSuffix(s: string, k: nat, sub: string)
    requires k <= |s| && Includes(s[k..], sub)
    ensures Includes(s, sub)
  {
    if k > 0 {
      assert s[1..][k - 1..] == s[k..];
      IncludesSuffix(s[1..], k - 1, sub);
    }
  }

  /** Lower-casing never turns a character into white space or back, so
      it commutes with trimming. */
  lemma {:induction false} TrimStartLower(s: string)
    ensures TrimStart(ToLower(s)) == ToLower(TrimStart(s))
  {
    if s != [] {
      var l := ToLower(s);
      assert l == [LowerChar(s[0])] + ToLower(s[1..]);
      assert IsSpace(l[0]) == IsSpace(s[0]);
      if IsSpace(s[0]) {
        assert l[1..] == ToLower(s[1..]);
        TrimStartLower(s[1..]);
      }
    }
  }

  lemma {:induction false} TrimEndLower(s: string)
    ensures TrimEnd(ToLower(s)) == ToLower(TrimEnd(s))
  {
    if s != [] {
      var n := |s|;
      assert ToLower(s)[..n - 1] == ToLower(s[..n - 1]);
      if IsSpace(s[n - 1]) {
        TrimEndLower(s[..n - 1]);
      }
    }
  }

  /** The `lowercase` and `trim` setters give the same value in either order. */
  lemma LowerTrimCommute(s: string)
    ensures ToLower(Trim(s)) == Trim(ToLower(s))
  {
    TrimStartLower(s);
    TrimEndLower(TrimStart(s));
  }

  /** The array setter of `Event.tags` and `User.interests`: every entry
      trimmed and lower-cased; anything that is not an array becomes the
      empty list. */
  function NormalizeList(xs: ListInput<string>): (r: seq<string>)
    ensures xs.List? ==>
              |r| == |xs.items| &&
              forall i :: 0 <= i < |r| ==> r[i] == ToLower(Trim(xs.items[i]))
    ensures !xs.List? ==> r == []
  {
    match xs
    case List(items) => seq(|items|, i requires 0 <= i < |items| => ToLower(Trim(items[i])))
    case _ => []
  }

  /** An entry the setter has already normalised. */
  predicate IsNormalEntry(t: string) {
    IsTrimmed(t) && ToLower(t) == t
  }

  lemma NormalEntry(t: string)
    ensures IsNormalEntry(ToLower(Trim(t)))
  {
    var a := Trim(t);
    TrimIsTrimmed(t);
    ToLowerIdempotent(a);
    var l := ToLower(a);
    if l != [] {
      LowerCharKeepsSpace(a[0]);
      LowerCharKeepsSpace(a[|a| - 1]);
      assert l[0] == LowerChar(a[0]) && l[|l| - 1] == LowerChar(a[|a| - 1]);
    }
  }

  /** Lower-casing a character never makes it white space or removes it. */
  lemma LowerCharKeepsSpace(c: char)
    ensures IsSpace(LowerChar(c)) <==> IsSpace(c)
  {
  }

  lemma NormalEntryFixed(t: string)
    requires IsNormalEntry(t)
    ensures ToLower(Trim(t)) == t
  {
    TrimOfTrimmed(t);
  }

  /** Setting the stored list again leaves it as it is. */
  lemma NormalizeListIdempotent(xs: ListInput<string>)
    ensures NormalizeList(List(NormalizeList(xs))) == NormalizeList(xs)
  {
    var r := NormalizeList(xs);
    forall i | 0 <= i < |r|
      ensures ToLower(Trim(r[i])) == r[i]
    {
      NormalEntry(xs.items[i]);
      NormalEntryFixed(r[i]);
    }
  }
}
