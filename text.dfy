/** Lower-casing of form text and the "yes" coercion applied to the four
    amenity flags of a new cafe. */
module Text {

  predicate IsUpper(c: char) { 'A' <= c <= 'Z' }

  predicate IsLower(c: char) { 'a' <= c <= 'z' }

  /** Lower-cases one ASCII letter and leaves every other character alone. */
  function LowerChar(c: char): (d: char)
    ensures !IsUpper(d)
    ensures !IsUpper(c) ==> d == c
    ensures IsUpper(c) ==> IsLower(d) && d as int == c as int + 32
  {
    if IsUpper(c) then (c as int + 32) as char else c
  }

  /** ASCII model of `str.lower()`: the same length, each character lowered. */
  function Lower(s: string): (r: string)
    ensures |r| == |s|
    ensures forall i :: 0 <= i < |s| ==> r[i] == LowerChar(s[i])
  {
    if s == [] then [] else [LowerChar(s[0])] + Lower(s[1..])
  }

  /** A character lowers to the lower-case letter `d` exactly when it is `d`
      or the matching capital. */
  lemma LowerCharTo(c: char, d: char)
    requires IsLower(d)
    ensures LowerChar(c) == d <==> c == d || c as int == d as int - 32
  {
  }

  /** The coercion of an amenity field: `text.lower() == "yes"`. It is true
      exactly for a case variant of "yes". */
  predicate IsYes(text: string): (b: bool)
    ensures b <==> IsYesSpelling(text)
  {
    YesIffSpelling(text);
    Lower(text) == "yes"
  }

  /** The eight spellings of "yes" that differ only in letter case. */
  predicate IsYesSpelling(text: string)
  {
    && |text| == 3
    && (text[0] == 'y' || text[0] == 'Y')
    && (text[1] == 'e' || text[1] == 'E')
    && (text[2] == 's' || text[2] == 'S')
  }

  /** A text lowers to "yes" exactly when it is a case variant of "yes". */
  lemma YesIffSpelling(text: string)
    ensures Lower(text) == "yes" <==> IsYesSpelling(text)
  {
    if |text| == 3 {
      LowerCharTo(text[0], 'y');
      LowerCharTo(text[1], 'e');
      LowerCharTo(text[2], 's');
      var low := Lower(text);
      assert low == "yes" <==> low[0] == 'y' && low[1] == 'e' && low[2] == 's';
    }
  }
}
