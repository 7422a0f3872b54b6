/** `TMP_LineInfo` of TextMeshPro's Scripts/Runtime/TMP_LineInfo.cs: the
    per-line layout record that the text generator clears with `Reset`
    before reusing it. C# `float`s are reals. */
module TmpLineInfo {
  import opened TmpMeshUtilities

  /** `HorizontalAlignmentOptions`, by name (its declaration is not part of
      this model). */
  datatype HorizontalAlignment = Left | Center | Right | Justified | Flush | Geometry

  class LineInfo {
    var controlCharacterCount: int

    var characterCount: int
    var visibleCharacterCount: int
    var spaceCount: int
    var wordCount: int
    var firstCharacterIndex: int
    var firstVisibleCharacterIndex: int
    var lastCharacterIndex: int
    var lastVisibleCharacterIndex: int

    var length: real
    var lineHeight: real
    var ascender: real
    var baseline: real
    var descender: real
    var maxAdvance: real

    var width: real
    var marginLeft: real
    var marginRight: real

    var alignment: HorizontalAlignment
    var lineExtents: Extents

    /** Every count and index is zero. */
    predicate CountsCleared()
      reads this
    {
      characterCount == 0 && visibleCharacterCount == 0 && spaceCount == 0 && wordCount == 0 &&
      firstCharacterIndex == 0 && firstVisibleCharacterIndex == 0 &&
      lastCharacterIndex == 0 && lastVisibleCharacterIndex == 0
    }

    /** Every metric is zero. */
    predicate MetricsCleared()
      reads this
    {
      length == 0.0 && lineHeight == 0.0 && ascender == 0.0 && baseline == 0.0 && descender == 0.0 &&
      maxAdvance == 0.0 && width == 0.0 && marginLeft == 0.0 && marginRight == 0.0
    }

    /** `Reset()`: counts, indices and metrics to zero, the alignment to
        `Center`, the extents to `Extents.zero`; `controlCharacterCount` is
        not touched. */
    method Reset()
      modifies this
      ensures CountsCleared() && MetricsCleared()
      ensures alignment == Center
      ensures lineExtents == ZeroExtents
      ensures controlCharacterCount == old(controlCharacterCount)
    {
      ResetCounts();
      ResetMetrics();
      alignment := Center;
      lineExtents := ZeroExtents;
    }

    /** The first eight assignments of `Reset()`. */
    method ResetCounts()
      modifies this`characterCount, this`visibleCharacterCount, this`spaceCount, this`wordCount
      modifies this`firstCharacterIndex, this`firstVisibleCharacterIndex
      modifies this`lastCharacterIndex, this`lastVisibleCharacterIndex
      ensures CountsCleared()
    {
      characterCount := 0;
      visibleCharacterCount := 0;
      spaceCount := 0;
      wordCount := 0;
      firstCharacterIndex := 0;
      firstVisibleCharacterIndex := 0;
      lastCharacterIndex := 0;
      lastVisibleCharacterIndex := 0;
    }

    /** The float assignments of `Reset()`. */
    method ResetMetrics()
      modifies this`length, this`lineHeight, this`ascender, this`baseline, this`descender, this`maxAdvance
      modifies this`width, this`marginLeft, this`marginRight
      ensures MetricsCleared()
    {
      length := 0.0;
      lineHeight := 0.0;
      ascender := 0.0;
      baseline := 0.0;
      descender := 0.0;
      maxAdvance := 0.0;

      width := 0.0;
      marginLeft := 0.0;
      marginRight := 0.0;
    }
  }
}
