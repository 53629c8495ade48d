/**
 * Python string operations used by the core: substring test (`sub in s`),
 * `str.replace`, `str.split(sep)` for a one-character separator, and the
 * file-name sanitiser shared by the population and the individual logger.
 */
module Text {

  /** `sub in s`: some window of `s` equals `sub` (the empty string is in every string). */
  predicate Contains(s: string, sub: string)
    decreases |s|
  {
    if |s| < |sub| then false
    else s[..|sub|] == sub || (|s| > 0 && Contains(s[1..], sub))
  }

  /** `s.replace(pat, rep)`: every non-overlapping occurrence of `pat`, scanned left to right, becomes `rep`. */
  function ReplaceAll(s: string, pat: string, rep: string): string
    requires |pat| > 0
    decreases |s|
  {
    if |s| < |pat| then s
    else if s[..|pat|] == pat then rep + ReplaceAll(s[|pat|..], pat, rep)
    else [s[0]] + ReplaceAll(s[1..], pat, rep)
  }

  /** Replacing a pattern that does not occur leaves the string unchanged. */
  lemma {:induction false} ReplaceAbsent(s: string, pat: string, rep: string)
    requires |pat| > 0 && !Contains(s, pat)
    ensures ReplaceAll(s, pat, rep) == s
  {
    if |s| >= |pat| {
      ReplaceAbsent(s[1..], pat, rep);
    }
  }

  /** Each character of `s` mapped to its replacement: `c` becomes `rep`, every other character stays. */
  function MapChar(s: string, c: char, rep: string): string {
    if s == [] then [] else (if s[0] == c then rep else [s[0]]) + MapChar(s[1..], c, rep)
  }

  /** For a one-character pattern, `replace` works character by character. */
  lemma {:induction false} ReplaceOneChar(s: string, c: char, rep: string)
    ensures ReplaceAll(s, [c], rep) == MapChar(s, c, rep)
  {
    if s != [] {
      ReplaceOneChar(s[1..], c, rep);
      assert s[..1] == [s[0]];
    }
  }

  /** After mapping, a character other than `c` occurs exactly where it occurred before or in `rep`. */
  lemma {:induction false} MapCharIn(s: string, c: char, rep: string, x: char)
    ensures x in MapChar(s, c, rep) <==> (x != c && x in s) || (c in s && x in rep)
  {
    if s != [] {
      MapCharIn(s[1..], c, rep, x);
      assert s == [s[0]] + s[1..];
    }
  }

  lemma {:induction false} MapCharAbsent(s: string, c: char, rep: string)
    requires c !in s
    ensures MapChar(s, c, rep) == s
  {
    if s != [] {
      MapCharAbsent(s[1..], c, rep);
    }
  }

  predicate IsUnsafe(ch: char) { ch == ' ' || ch == ':' || ch == '/' }

  /**
   * `name.replace(" ", "").replace(":", "_").replace("/", "_")`
   * (population `_safe_file_name`, the same steps as the logger's `file_name` setter).
   */
  function SafeName(name: string): string {
    ReplaceAll(ReplaceAll(ReplaceAll(name, " ", ""), ":", "_"), "/", "_")
  }

  /** The sanitised name is the name with spaces dropped and ':' and '/' turned into '_'. */
  lemma {:induction false} SafeNameByChar(name: string)
    ensures SafeName(name) == MapChar(MapChar(MapChar(name, ' ', ""), ':', "_"), '/', "_")
  {
    ReplaceOneChar(name, ' ', "");
    ReplaceOneChar(MapChar(name, ' ', ""), ':', "_");
    ReplaceOneChar(MapChar(MapChar(name, ' ', ""), ':', "_"), '/', "_");
  }

  /** No space, ':' or '/' survives, and every other character of the name is kept. */
  lemma {:induction false} SafeNameIsSafe(name: string)
    ensures forall ch :: ch in SafeName(name) ==> !IsUnsafe(ch)
    ensures forall ch :: ch in name && !IsUnsafe(ch) ==> ch in SafeName(name)
  {
    SafeNameByChar(name);
    var a := MapChar(name, ' ', "");
    var b := MapChar(a, ':', "_");
    forall ch
      ensures ch in SafeName(name) ==> !IsUnsafe(ch)
      ensures ch in name && !IsUnsafe(ch) ==> ch in SafeName(name)
    {
      MapCharIn(name, ' ', "", ch);
      MapCharIn(a, ':', "_", ch);
      MapCharIn(b, '/', "_", ch);
    }
  }

  /** A name that is already safe is returned unchanged. */
  lemma {:induction false} SafeNameOfSafe(name: string)
    requires forall ch :: ch in name ==> !IsUnsafe(ch)
    ensures SafeName(name) == name
  {
    SafeNameByChar(name);
    MapCharAbsent(name, ' ', "");
    MapCharAbsent(name, ':', "_");
    MapCharAbsent(name, '/', "_");
  }

  /** Sanitising is idempotent. */
  lemma {:induction false} SafeNameIdempotent(name: string)
    ensures SafeName(SafeName(name)) == SafeName(name)
  {
    SafeNameIsSafe(name);
    SafeNameOfSafe(SafeName(name));
  }

  /** Position of the first `sep` in `s`, or |s| when there is none. */
  function FindChar(s: string, sep: char): (k: nat)
    ensures k <= |s| && (forall i :: 0 <= i < k ==> s[i] != sep) && (k < |s| ==> s[k] == sep)
  {
    if s == [] then 0
    else if s[0] == sep then 0
    else 1 + FindChar(s[1..], sep)
  }

  /** `s.split(sep)` for a one-character separator: always at least one piece, pieces may be empty. */
  function Split(s: string, sep: char): (r: seq<string>)
    ensures |r| >= 1
    decreases |s|
  {
    var k := FindChar(s, sep);
    if k == |s| then [s] else [s[..k]] + Split(s[k + 1..], sep)
  }

  /** No piece of a split holds the separator. */
  lemma {:induction false} SplitPieces(s: string, sep: char)
    ensures forall i :: 0 <= i < |Split(s, sep)| ==> sep !in Split(s, sep)[i]
    decreases |s|
  {
    var k := FindChar(s, sep);
    if k < |s| {
      SplitPieces(s[k + 1..], sep);
      assert Split(s, sep) == [s[..k]] + Split(s[k + 1..], sep);
    }
  }

  /** `sep.join(parts)`. */
  function Join(parts: seq<string>, sep: char): string
    requires |parts| >= 1
  {
    if |parts| == 1 then parts[0] else parts[0] + [sep] + Join(parts[1..], sep)
  }

  /** Splitting and joining again gives back the original string. */
  lemma {:induction false} JoinSplit(s: string, sep: char)
    ensures Join(Split(s, sep), sep) == s
    decreases |s|
  {
    var k := FindChar(s, sep);
    if k < |s| {
      var rest := Split(s[k + 1..], sep);
      JoinSplit(s[k + 1..], sep);
      var parts := [s[..k]] + rest;
      assert Split(s, sep) == parts;
      assert parts[0] == s[..k] && parts[1..] == rest;
      assert Join(parts, sep) == s[..k] + [sep] + Join(rest, sep);
      assert s == s[..k] + [sep] + s[k + 1..];
    } else {
      assert Split(s, sep) == [s];
    }
  }
}
