/** utils/text.py: bounding a text by a character count, with a visible marker when cut. */
module Text {
  import opened Wrappers
  import opened Strings

  /** What `truncate` appends to a text it cuts: a line break and `...[truncated]...`. */
  const TruncationMarker: string := "\n...[truncated]..."

  /**
    `truncate(s, max_chars)`. A missing text counts as empty. A text that fits is
    returned as is; a longer one keeps the part Python's `s[:max_chars]` selects
    (for a negative bound that drops characters from the end) and gets the marker.
  */
  function Truncate(s: Option<string>, maxChars: int): (r: string)
    ensures var t := s.GetOr("");
      && (|t| <= maxChars ==> r == t)
      && (|t| > maxChars ==>
            var kept := SliceIndex(maxChars, |t|);
            && |r| == kept + |TruncationMarker|
            && StartsWith(r, t[..kept])
            && EndsWith(r, TruncationMarker))
    ensures maxChars >= 0 ==> |r| <= maxChars + 18
    ensures var t := s.GetOr(""); maxChars >= 0 ==>
      StartsWith(r, t[..if |t| < maxChars then |t| else maxChars])
  {
    var t := s.GetOr("");
    if |t| <= maxChars then t else SliceTo(t, maxChars) + TruncationMarker
  }
}
