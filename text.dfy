/**
 * The string operations the source relies on, over ASCII: `toLowerCase`/`lower()`,
 * `includes`, and Python's `str.join`.
 */
module Text {

  /** ASCII lower-casing of one character; every other character is left as it is. */
  function LowerChar(c: char): char
  {
    if 'A' <= c <= 'Z' then (c as int + 32) as char else c
  }

  /** An ASCII capital letter. */
  predicate IsUpper(c: char)
  {
    'A' <= c <= 'Z'
  }

  /**
   * `toLowerCase()`/`lower()` over ASCII: the length is kept, no capital letter is left,
   * every character that is not a capital stays where it is, and each capital becomes the
   * small letter at the same place in the alphabet.
   */
  function Lower(s: string): (r: string)
    ensures |r| == |s|
    ensures forall i :: 0 <= i < |r| ==> !IsUpper(r[i])
    ensures forall i :: 0 <= i < |s| && !IsUpper(s[i]) ==> r[i] == s[i]
    ensures forall i :: 0 <= i < |s| && IsUpper(s[i]) ==>
      'a' <= r[i] <= 'z' && r[i] as int - 'a' as int == s[i] as int - 'A' as int
  {
    seq(|s|, i requires 0 <= i < |s| => LowerChar(s[i]))
  }

  /** `sub` occurs in `s` starting at index `i`. */
  predicate OccursAt(s: string, sub: string, i: int)
  {
    0 <= i <= |s| - |sub| && s[i..i + |sub|] == sub
  }

  /** `s.includes(sub)`: `sub` occurs in `s` at some position. */
  function Contains(s: string, sub: string): (r: bool)
    ensures r <==> exists i :: OccursAt(s, sub, i)
    decreases |s|
  {
    if |sub| > |s| then false
    else if s[..|sub|] == sub then assert OccursAt(s, sub, 0); true
    else
      var rest := Contains(s[1..], sub);
      assert forall i :: OccursAt(s[1..], sub, i) ==> OccursAt(s, sub, i + 1) by {
        forall i: nat | OccursAt(s[1..], sub, i) {
          OccursInTail(s, sub, i);
        }
      }
      assert forall j :: 1 <= j && OccursAt(s, sub, j) ==> OccursAt(s[1..], sub, j - 1) by {
        forall j | 1 <= j && OccursAt(s, sub, j) {
          OccursInTail(s, sub, j - 1);
        }
      }
      assert !OccursAt(s, sub, 0);
      rest
  }

  /** An occurrence in the tail of `s` is an occurrence in `s` one place later, and back. */
  lemma OccursInTail(s: string, sub: string, i: nat)
    requires |s| > 0
    ensures OccursAt(s[1..], sub, i) <==> OccursAt(s, sub, i + 1)
  {
    if 0 <= i <= |s| - 1 - |sub| {
      assert s[1..][i..i + |sub|] == s[i + 1..i + 1 + |sub|];
    }
  }

  /** Lower-casing an already lower-cased string changes nothing. */
  lemma LowerIdempotent(s: string)
    ensures Lower(Lower(s)) == Lower(s)
  {
    var r := Lower(s);
    forall i | 0 <= i < |r|
      ensures Lower(r)[i] == r[i]
    {
      assert !IsUpper(r[i]);
    }
  }

  /** The summed length of the parts. */
  function TotalLength(parts: seq<string>): nat
  {
    if |parts| == 0 then 0 else TotalLength(parts[..|parts| - 1]) + |parts[|parts| - 1]|
  }

  /** Python's `sep.join(parts)`. */
  function Join(parts: seq<string>, sep: string): string
  {
    if |parts| == 0 then ""
    else if |parts| == 1 then parts[0]
    else Join(parts[..|parts| - 1], sep) + sep + parts[|parts| - 1]
  }

  /**
   * What `join` produces: no parts give the empty string; otherwise the result starts with
   * the first part, ends with the last, and holds every part plus one separator between each
   * pair of neighbours.
   */
  lemma {:induction false} JoinShape(parts: seq<string>, sep: string)
    ensures |parts| == 0 ==> Join(parts, sep) == ""
    ensures |parts| > 0 ==> |Join(parts, sep)| == TotalLength(parts) + (|parts| - 1) * |sep|
    ensures |parts| > 0 ==> parts[0] <= Join(parts, sep)
    ensures |parts| > 0 ==> Join(parts, sep)[|Join(parts, sep)| - |parts[|parts| - 1]|..] == parts[|parts| - 1]
    decreases |parts|
  {
    if |parts| > 1 {
      var front := parts[..|parts| - 1];
      JoinShape(front, sep);
      assert front[0] == parts[0];
      assert TotalLength(parts) == TotalLength(front) + |parts[|parts| - 1]|;
      assert (|parts| - 1) * |sep| == (|front| - 1) * |sep| + |sep|;
    }
  }

  /** Every string contains the empty string, so filtering by empty text keeps everything. */
  lemma ContainsEmpty(s: string)
    ensures Contains(s, "")
  {
    assert OccursAt(s, "", 0);
  }
}
