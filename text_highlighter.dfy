/**
  The `TextHighlighter` component of
  client/src/components/TextHighlighter.tsx: the colour chosen in the
  toggle group, and the highlight request built from the current text
  selection.

  The selection is given by its text and by its pre-caret text: the text
  from the start of the offset root up to the end of the selection. The
  root is `contentRef.current || document.body`, and `contentRef` is
  never attached to an element, so the root is always the document body.
*/
module TextHighlighter {
  import opened Wrappers

  /** `selection.toString()` and the pre-caret range's text. */
  datatype Selection = Selection(text: string, preCaretText: string)

  /** The arguments of `createHighlight.mutate`. */
  datatype HighlightRequest = HighlightRequest(
    documentId: int, text: string, color: string, startOffset: int, endOffset: int)

  const DefaultColor: string := "yellow"
  const EmptySelectionError: string := "Please select some text to highlight"

  /** `startOffset` and `endOffset`: the length of the pre-caret text less
      that of the selection, and that plus the selection's length. */
  function Offsets(preCaretText: string, selectedText: string): (int, int) {
    var startOffset := |preCaretText| - |selectedText|;
    (startOffset, startOffset + |selectedText|)
  }

  /** The span is as long as the selection and ends where the pre-caret
      text ends; the start is not clamped, so it is negative exactly when
      the selection is longer than the pre-caret text. */
  lemma OffsetsSpec(preCaretText: string, selectedText: string)
    ensures var (startOffset, endOffset) := Offsets(preCaretText, selectedText);
      && endOffset - startOffset == |selectedText|
      && endOffset == |preCaretText|
      && (startOffset >= 0 <==> |selectedText| <= |preCaretText|)
  {
  }

  /** For a selection of the body's characters `start` to `end`, the
      offsets are exactly that range. */
  lemma OffsetsOfBodyRange(body: string, start: nat, end: nat)
    requires start <= end <= |body|
    ensures Offsets(body[..end], body[start..end]) == (start, end)
  {
  }

  class TextHighlighter {
    const documentId: int
    var selectedColor: string

    constructor(documentId: int)
      ensures this.documentId == documentId
      ensures selectedColor == DefaultColor
    {
      this.documentId := documentId;
      selectedColor := DefaultColor;
    }

    /** The toggle group's `onValueChange`: deselecting the current item
        reports the empty value, which keeps the colour. */
    method OnValueChange(v: string)
      modifies this
      ensures selectedColor == (if v != "" then v else old(selectedColor))
    {
      if v != "" {
        selectedColor := v;
      }
    }

    /** `handleTextSelection`: a missing or empty selection is reported and
        creates nothing; otherwise the request carries the selected text,
        the current colour and the offsets. */
    method HandleTextSelection(selection: Option<Selection>) returns (r: Result<HighlightRequest>)
      ensures selection.None? || selection.value.text == "" <==> r.Failure?
      ensures r.Failure? ==> r.error == EmptySelectionError
      ensures r.Success? ==>
        var s := selection.value;
        && r.value.documentId == documentId
        && r.value.text == s.text
        && r.value.color == selectedColor
        && (r.value.startOffset, r.value.endOffset) == Offsets(s.preCaretText, s.text)
        && r.value.endOffset - r.value.startOffset == |s.text|
        && r.value.endOffset == |s.preCaretText|
    {
      if selection.None? || |selection.value.text| == 0 {
        return Failure(EmptySelectionError);
      }
      var selectedText := selection.value.text;
      var startOffset := |selection.value.preCaretText| - |selectedText|;
      var endOffset := startOffset + |selectedText|;
      r := Success(HighlightRequest(documentId, selectedText, selectedColor, startOffset, endOffset));
    }
  }

  /** A highlighter that was just created sends yellow; after choosing red
      and then deselecting it, it still sends red. */
  method ColorScenario(documentId: int, body: string, start: nat, end: nat)
    returns (first: Result<HighlightRequest>, second: Result<HighlightRequest>)
    requires start < end <= |body|
    ensures first == Success(HighlightRequest(documentId, body[start..end], "yellow", start, end))
    ensures second == Success(HighlightRequest(documentId, body[start..end], "red", start, end))
  {
    var h := new TextHighlighter(documentId);
    var selection := Some(Selection(body[start..end], body[..end]));
    first := h.HandleTextSelection(selection);
    h.OnValueChange("red");
    h.OnValueChange("");
    second := h.HandleTextSelection(selection);
    OffsetsOfBodyRange(body, start, end);
  }
}
