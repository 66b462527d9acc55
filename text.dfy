/** The two string operations the search boxes use. `toLowerCase` is taken as
    a per-character lowering function supplied by the caller. */
module Text {

  /** `s.toLowerCase()`, one character at a time. */
  function Lowered(s: string, lower: char -> char): string
  {
    seq(|s|, i requires 0 <= i < |s| => lower(s[i]))
  }

  /** `search` occurs in `text` starting at position `i`. */
  predicate OccursAt(text: string, search: string, i: int)
  {
    0 <= i && i + |search| <= |text| && text[i..i + |search|] == search
  }

  /** `text.includes(search)`: `search` occurs in `text` as a contiguous block. */
  predicate Includes(text: string, search: string): (b: bool)
    ensures b ==> |search| <= |text|
    ensures b && |search| == |text| ==> text == search
  {
    exists i | 0 <= i <= |text| - |search| :: OccursAt(text, search, i)
  }

  /** Every text includes the empty string. */
  lemma IncludesEmpty(text: string)
    ensures Includes(text, "")
  {
    assert OccursAt(text, "", 0);
  }
}
