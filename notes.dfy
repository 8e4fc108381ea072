/** The notes page (`client/src/pages/notes.tsx`): search and subject filtering, and the shared
    create/edit form. */
module Notes {
  import opened Strings
  import opened Lists
  import Storage

  datatype Note = Note(id: int, title: string, content: string, subject: Option<string>)

  /** The search term occurs, ignoring ASCII case, in the title or the content; an empty subject
      filter accepts every note. There is no "all" value. */
  predicate Matches(searchTerm: string, selectedSubject: string, note: Note)
    ensures searchTerm == [] && selectedSubject == "" ==> Matches(searchTerm, selectedSubject, note)
  {
    ContainsEmpty(ToLower(note.title));
    (Contains(ToLower(note.title), ToLower(searchTerm)) || Contains(ToLower(note.content), ToLower(searchTerm))) &&
    (selectedSubject == "" || note.subject == Some(selectedSubject))
  }

  /** `filteredNotes`: the matching notes in their original order. */
  function FilteredNotes(notes: seq<Note>, searchTerm: string, selectedSubject: string): (r: seq<Note>)
    ensures forall k | 0 <= k < |r| :: r[k] in notes && Matches(searchTerm, selectedSubject, r[k])
    ensures forall k | 0 <= k < |notes| && Matches(searchTerm, selectedSubject, notes[k]) :: notes[k] in r
    ensures IsSubsequence(r, notes)
  {
    var p := (n: Note) => Matches(searchTerm, selectedSubject, n);
    FilterMembershipAll(notes, p);
    FilterIsSubsequence(notes, p);
    Filter(notes, p)
  }

  /** No search term and no subject: every note is listed. */
  lemma EmptyFiltersKeepAll(notes: seq<Note>)
    ensures FilteredNotes(notes, "", "") == notes
  {
    forall n: Note
      ensures Matches("", "", n)
    {
      ContainsEmpty(ToLower(n.title));
    }
    FilterKeepsAll(notes, (n: Note) => Matches("", "", n));
  }

  /** Choosing "all" as subject is an ordinary value: only notes filed under "all" remain. */
  lemma AllIsAnOrdinarySubject(notes: seq<Note>, searchTerm: string)
    ensures forall k | 0 <= k < |FilteredNotes(notes, searchTerm, "all")| ::
              FilteredNotes(notes, searchTerm, "all")[k].subject == Some("all")
  {
  }

  // ---------------------------------------------------------------- the form

  datatype NoteForm = NoteForm(title: string, content: string, subject: string)

  const EmptyForm := NoteForm("", "", "")

  /** What Save sends: an update of the note being edited, or a new note. */
  datatype NoteRequest = UpdateNote(id: int, form: NoteForm) | CreateNote(form: NoteForm)

  /** The body of a create, as the store receives it. */
  function CreateBody(form: NoteForm): (r: Storage.InsertNote)
    ensures r.title == form.title && r.content == form.content && r.subject == Some(form.subject)
  {
    Storage.InsertNote(form.title, form.content, Some(form.subject))
  }

  /** Opening a note and saving it unchanged gives the store back the note's subject: `null`
      became `""` in the form and `""` becomes `null` again. */
  lemma EditSubjectRoundTrip(note: Note)
    requires note.subject != Some("")
    ensures Storage.OrNull(Some(EditForm(note).subject)) == note.subject
  {
  }

  /** `handleEdit`'s form: title and content copied, a `null` subject shown as `""`. */
  function EditForm(note: Note): (f: NoteForm)
    ensures f.title == note.title && f.content == note.content
    ensures note.subject.None? ==> f.subject == ""
    ensures note.subject.Some? ==> f.subject == note.subject.value
  {
    NoteForm(note.title, note.content, if note.subject.Some? then note.subject.value else "")
  }

  class NotesPage {
    var editingNote: Option<Note>
    var noteForm: NoteForm
    var isCreateModalOpen: bool

    constructor()
      ensures editingNote.None? && noteForm == EmptyForm && !isCreateModalOpen
    {
      editingNote := None;
      noteForm := EmptyForm;
      isCreateModalOpen := false;
    }

    /** Edit: remember the note, fill the form from it and open the dialog. */
    method HandleEdit(note: Note)
      modifies this
      ensures editingNote == Some(note) && noteForm == EditForm(note) && isCreateModalOpen
    {
      editingNote := Some(note);
      noteForm := EditForm(note);
      isCreateModalOpen := true;
    }

    /** Save: an update when a note is being edited, a create otherwise. Nothing changes until
        the request succeeds. */
    method HandleSubmit() returns (request: NoteRequest)
      ensures editingNote.Some? <==> request.UpdateNote?
      ensures editingNote.Some? ==> request == UpdateNote(editingNote.value.id, noteForm)
      ensures editingNote.None? ==> request == CreateNote(noteForm)
    {
      if editingNote.Some? {
        request := UpdateNote(editingNote.value.id, noteForm);
      } else {
        request := CreateNote(noteForm);
      }
    }

    /** A successful create closes the dialog and clears the form. */
    method CreateSucceeded()
      modifies this
      ensures noteForm == EmptyForm && !isCreateModalOpen && editingNote == old(editingNote)
    {
      isCreateModalOpen := false;
      noteForm := EmptyForm;
    }

    /** A successful update stops editing and clears the form. */
    method UpdateSucceeded()
      modifies this
      ensures editingNote.None? && noteForm == EmptyForm && isCreateModalOpen == old(isCreateModalOpen)
    {
      editingNote := None;
      noteForm := EmptyForm;
    }
  }
}
