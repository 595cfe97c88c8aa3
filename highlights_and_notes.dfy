/**
  The note editor of the `HighlightsAndNotes` component in
  client/src/components/HighlightsAndNotes.tsx: the text being written and
  the note being edited, the save, edit and cancel actions, the success
  callbacks of the update and create mutations, and the colour classes of
  the highlight cards.
*/
module HighlightsAndNotes {
  import opened Wrappers
  import opened JsString

  /** A stored note, as far as the editor uses it. */
  datatype Note = Note(id: int, content: string)

  /** What saving does: nothing but an error toast, or one mutation. */
  datatype SaveOutcome =
    | Rejected(error: string)
    | UpdateNote(id: int, content: string)
    | CreateNote(documentId: int, content: string, offset: int)

  const EmptyNoteError: string := "Note cannot be empty"

  /** A note id is truthy unless it is null or 0. */
  predicate Truthy(id: Option<int>) {
    id.Some? && id.value != 0
  }

  class NoteEditor {
    const documentId: int
    var newNoteText: string
    var editingNoteId: Option<int>

    constructor(documentId: int)
      ensures this.documentId == documentId
      ensures newNoteText == "" && editingNoteId == None
    {
      this.documentId := documentId;
      newNoteText := "";
      editingNoteId := None;
    }

    /** The text areas' `onChange`. */
    method SetNoteText(text: string)
      modifies this
      ensures newNoteText == text && editingNoteId == old(editingNoteId)
    {
      newNoteText := text;
    }

    /** `handleSaveNote`: blank text is refused; while a note is being
        edited (and its id is truthy) the text updates it; otherwise it
        becomes a new note at offset 0. The text is sent untrimmed, and the
        editor's state is left as it is. */
    method SaveNote() returns (r: SaveOutcome)
      ensures Trim(newNoteText) == "" <==> r == Rejected(EmptyNoteError)
      ensures Trim(newNoteText) != "" && Truthy(editingNoteId) ==>
        r == UpdateNote(editingNoteId.value, newNoteText)
      ensures Trim(newNoteText) != "" && !Truthy(editingNoteId) ==>
        r == CreateNote(documentId, newNoteText, 0)
    {
      if Trim(newNoteText) == "" {
        return Rejected(EmptyNoteError);
      }
      if editingNoteId.Some? && editingNoteId.value != 0 {
        r := UpdateNote(editingNoteId.value, newNoteText);
      } else {
        r := CreateNote(documentId, newNoteText, 0);
      }
    }

    /** The Edit button of a note. */
    method Edit(note: Note)
      modifies this
      ensures editingNoteId == Some(note.id) && newNoteText == note.content
    {
      editingNoteId := Some(note.id);
      newNoteText := note.content;
    }

    /** The Cancel button. */
    method Cancel()
      modifies this
      ensures editingNoteId == None && newNoteText == ""
    {
      editingNoteId := None;
      newNoteText := "";
    }

    /** The update mutation succeeded: editing ends and the text clears. */
    method OnUpdateSuccess()
      modifies this
      ensures editingNoteId == None && newNoteText == ""
    {
      editingNoteId := None;
      newNoteText := "";
    }

    /** The create mutation succeeded: only the text clears. */
    method OnCreateSuccess()
      modifies this
      ensures newNoteText == "" && editingNoteId == old(editingNoteId)
    {
      newNoteText := "";
    }
  }

  /** Saving right after editing a note sends the note's own content back
      as an update, unless that content is blank, or the note's id is 0,
      which is falsy, so that a new note is created instead. */
  method EditThenSave(documentId: int, note: Note) returns (r: SaveOutcome)
    ensures Trim(note.content) == "" ==> r == Rejected(EmptyNoteError)
    ensures Trim(note.content) != "" && note.id != 0 ==> r == UpdateNote(note.id, note.content)
    ensures Trim(note.content) != "" && note.id == 0 ==> r == CreateNote(documentId, note.content, 0)
  {
    var editor := new NoteEditor(documentId);
    editor.Edit(note);
    r := editor.SaveNote();
  }

  /** Cancelling an edit and typing a new text creates a note rather than
      updating the one that was being edited. */
  method EditCancelThenSave(documentId: int, note: Note, text: string) returns (r: SaveOutcome)
    requires Trim(text) != ""
    ensures r == CreateNote(documentId, text, 0)
  {
    var editor := new NoteEditor(documentId);
    editor.Edit(note);
    editor.Cancel();
    editor.SetNoteText(text);
    r := editor.SaveNote();
  }

  /** Once a created note is confirmed, saving again is refused: the same
      text is not created twice. */
  method CreateThenSaveAgain(documentId: int, text: string) returns (first: SaveOutcome, second: SaveOutcome)
    requires Trim(text) != ""
    ensures first == CreateNote(documentId, text, 0)
    ensures second == Rejected(EmptyNoteError)
  {
    var editor := new NoteEditor(documentId);
    editor.SetNoteText(text);
    first := editor.SaveNote();
    editor.OnCreateSuccess();
    second := editor.SaveNote();
    assert Trim("") == "";
  }

  /** After a confirmed update, the editor is back in its initial state, so
      the next note typed is created, not sent as an update. */
  method UpdateThenNewNote(documentId: int, note: Note, text: string) returns (r: SaveOutcome)
    requires Trim(text) != ""
    ensures r == CreateNote(documentId, text, 0)
  {
    var editor := new NoteEditor(documentId);
    editor.Edit(note);
    var _ := editor.SaveNote();
    editor.OnUpdateSuccess();
    editor.SetNoteText(text);
    r := editor.SaveNote();
  }

  // ---------------------------------------------------------------------
  // getHighlightColor

  function HighlightColor(color: string): string {
    match color
    case "yellow" => "bg-yellow-100 text-yellow-900"
    case "red" => "bg-red-100 text-red-900"
    case "green" => "bg-green-100 text-green-900"
    case _ => "bg-gray-100 text-gray-900"
  }

  /** The Tailwind background and text classes of a colour name. */
  function Classes(name: string): string {
    "bg-" + name + "-100 text-" + name + "-900"
  }

  /** Each of the three highlight colours gets the background and text
      classes of its own name; every other value gets gray ones. */
  lemma HighlightColorSpec(color: string)
    ensures HighlightColor(color) == Classes(if color in ["yellow", "red", "green"] then color else "gray")
  {
    if color == "yellow" {
      YellowClasses();
    } else if color == "red" {
      RedClasses();
    } else if color == "green" {
      GreenClasses();
    } else {
      GrayClasses();
    }
  }

  lemma YellowClasses()
    ensures Classes("yellow") == "bg-yellow-100 text-yellow-900"
  {
  }

  lemma RedClasses()
    ensures Classes("red") == "bg-red-100 text-red-900"
  {
  }

  lemma GreenClasses()
    ensures Classes("green") == "bg-green-100 text-green-900"
  {
  }

  lemma GrayClasses()
    ensures Classes("gray") == "bg-gray-100 text-gray-900"
  {
  }
}
