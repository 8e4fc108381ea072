/** The in-memory store behind the Express server (`server/storage.ts`): seven tables keyed by
    auto-incremented ids. A JavaScript `Map` iterates in insertion order and the ids only grow, so
    each table is modelled as the sequence of its rows in insertion order. */
module Storage {
  import opened Strings
  import opened Lists

  datatype User = User(id: nat, username: string, password: string)

  /** A row of a per-user table: its id, its owner and the fields the caller inserted. */
  datatype Row<T> = Row(id: nat, userId: int, fields: T)

  datatype BookmarkFields = BookmarkFields(
    videoId: string, title: string, channel: string, duration: string, thumbnail: string)

  /** `subject` is `null` when absent or empty. */
  datatype SessionFields = SessionFields(duration: int, subject: Option<string>)
  datatype InsertSession = InsertSession(duration: int, subject: Option<string>)

  datatype NoteFields = NoteFields(title: string, content: string, subject: Option<string>)
  datatype InsertNote = InsertNote(title: string, content: string, subject: Option<string>)

  datatype TaskFields = TaskFields(
    title: string, description: Option<string>, status: string, priority: string,
    subject: Option<string>, dueDate: Option<string>)
  /** Every optional field of a new task; `None` is an absent field. */
  datatype InsertTask = InsertTask(
    title: string, description: Option<string>, status: Option<string>, priority: Option<string>,
    subject: Option<string>, dueDate: Option<string>)

  datatype FlashcardFields = FlashcardFields(front: string, back: string, subject: string, difficulty: string)

  datatype ScheduleFields = ScheduleFields(
    title: string, subject: string, startTime: string, endTime: string, dayOfWeek: int, color: string)

  // ---------------------------------------------------------------- JavaScript defaults

  /** `x || null` on an optional string: absent and `""` (falsy) both become `null`. */
  function OrNull(x: Option<string>): (r: Option<string>)
    ensures r != Some("")
    ensures x.Some? && x.value != "" ==> r == x
    ensures x.None? || x == Some("") ==> r.None?
  {
    if x.Some? && x.value != "" then x else None
  }

  /** `x || d` on an optional string. */
  function OrDefault(x: Option<string>, d: string): (r: string)
    ensures x.Some? && x.value != "" ==> r == x.value
    ensures x.None? || x == Some("") ==> r == d
  {
    if x.Some? && x.value != "" then x.value else d
  }

  /** The stored fields of `createTask`. */
  function NewTask(t: InsertTask): (f: TaskFields)
    ensures f.title == t.title
    ensures f.status != "" && f.priority != ""
    ensures f.description != Some("") && f.subject != Some("") && f.dueDate != Some("")
    ensures t.status.None? ==> f.status == "pending"
    ensures t.priority.None? ==> f.priority == "medium"
    ensures t.description.None? && t.subject.None? && t.dueDate.None? ==>
              f.description.None? && f.subject.None? && f.dueDate.None?
    ensures t.status.Some? && t.status.value != "" ==> f.status == t.status.value
    ensures t.priority.Some? && t.priority.value != "" ==> f.priority == t.priority.value
    ensures t.status == Some("") ==> f.status == "pending"
    ensures t.priority == Some("") ==> f.priority == "medium"
    ensures f.description == (if t.description == Some("") then None else t.description)
    ensures f.subject == (if t.subject == Some("") then None else t.subject)
    ensures f.dueDate == (if t.dueDate == Some("") then None else t.dueDate)
  {
    TaskFields(t.title, OrNull(t.description), OrDefault(t.status, "pending"),
               OrDefault(t.priority, "medium"), OrNull(t.subject), OrNull(t.dueDate))
  }

  // ---------------------------------------------------------------- table invariants

  /** Ids are at least 1, strictly increasing in insertion order and below the next id. */
  predicate IdsBelow<T>(t: seq<Row<T>>, next: nat)
  {
    (forall i, j | 0 <= i < j < |t| :: t[i].id < t[j].id) &&
    (forall i | 0 <= i < |t| :: 1 <= t[i].id < next)
  }

  predicate UserIdsBelow(t: seq<User>, next: nat)
  {
    (forall i, j | 0 <= i < j < |t| :: t[i].id < t[j].id) &&
    (forall i | 0 <= i < |t| :: 1 <= t[i].id < next)
  }

  /** Appending a row with the current counter as id keeps the invariant for the bumped counter,
      and the new id differs from every id already in the table. */
  lemma AppendKeepsIds<T>(t: seq<Row<T>>, next: nat, row: Row<T>)
    requires IdsBelow(t, next) && row.id == next && next >= 1
    ensures IdsBelow(t + [row], next + 1)
    ensures forall i | 0 <= i < |t| :: t[i].id != row.id
  {
  }

  lemma UserAppendKeepsIds(t: seq<User>, next: nat, user: User)
    requires UserIdsBelow(t, next) && user.id == next && next >= 1
    ensures UserIdsBelow(t + [user], next + 1)
    ensures forall i | 0 <= i < |t| :: t[i].id != user.id
  {
  }

  /** Deleting a row keeps the invariant: ids are never renumbered. */
  lemma DeleteKeepsIds<T>(t: seq<Row<T>>, next: nat, k: nat)
    requires IdsBelow(t, next) && k < |t|
    ensures IdsBelow(t[..k] + t[k + 1..], next)
  {
    var r := t[..k] + t[k + 1..];
    forall i, j | 0 <= i < j < |r|
      ensures r[i].id < r[j].id
    {
      var i' := if i < k then i else i + 1;
      var j' := if j < k then j else j + 1;
      assert r[i] == t[i'] && r[j] == t[j'];
    }
    forall i | 0 <= i < |r|
      ensures 1 <= r[i].id < next
    {
      assert r[i] == t[if i < k then i else i + 1];
    }
  }

  // ---------------------------------------------------------------- per-user queries

  /** `Array.from(table.values()).filter(row => row.userId === userId)`. */
  function OwnedBy<T>(t: seq<Row<T>>, userId: int): (r: seq<Row<T>>)
    ensures forall i | 0 <= i < |r| :: r[i] in t && r[i].userId == userId
    ensures forall i | 0 <= i < |t| && t[i].userId == userId :: t[i] in r
    ensures IsSubsequence(r, t)
  {
    var mine := (row: Row<T>) => row.userId == userId;
    FilterMembershipAll(t, mine);
    FilterIsSubsequence(t, mine);
    Filter(t, mine)
  }

  lemma OwnedByAppend<T>(t: seq<Row<T>>, row: Row<T>, userId: int)
    ensures OwnedBy(t + [row], userId) == OwnedBy(t, userId) + (if row.userId == userId then [row] else [])
  {
    var mine := (r: Row<T>) => r.userId == userId;
    FilterAppend(t, [row], mine);
    assert Filter([row], mine) == (if row.userId == userId then [row] else []) + Filter([], mine);
  }

  /** `sessions.reduce((total, s) => total + s.duration, 0)`. */
  function TotalDuration(sessions: seq<Row<SessionFields>>): (r: int)
    ensures (forall k :: 0 <= k < |sessions| ==> sessions[k].fields.duration >= 0) ==> r >= 0
    ensures |sessions| == 1 ==> r == sessions[0].fields.duration
  {
    if sessions == [] then 0
    else TotalDuration(sessions[..|sessions| - 1]) + sessions[|sessions| - 1].fields.duration
  }

  /** Adding a session raises its owner's total by its duration and no one else's. */
  lemma {:induction false} TotalAfterAppend(t: seq<Row<SessionFields>>, row: Row<SessionFields>, userId: int)
    ensures TotalDuration(OwnedBy(t + [row], userId)) ==
            TotalDuration(OwnedBy(t, userId)) + (if row.userId == userId then row.fields.duration else 0)
  {
    OwnedByAppend(t, row, userId);
    var before := OwnedBy(t, userId);
    if row.userId == userId {
      assert (before + [row])[..|before + [row]| - 1] == before;
    } else {
      assert before + [] == before;
    }
  }

  /** The bookmark `removeBookmark` looks for: same owner and same video. */
  function Matches(userId: int, videoId: string): Row<BookmarkFields> -> bool
  {
    (b: Row<BookmarkFields>) => b.userId == userId && b.fields.videoId == videoId
  }

  predicate Bookmarked(t: seq<Row<BookmarkFields>>, userId: int, videoId: string)
  {
    exists i | 0 <= i < |t| :: Matches(userId, videoId)(t[i])
  }

  /** The table after `removeBookmark`: the first matching row, in insertion order, is deleted. */
  function RemoveFirst(t: seq<Row<BookmarkFields>>, userId: int, videoId: string): (r: seq<Row<BookmarkFields>>)
    ensures !Bookmarked(t, userId, videoId) ==> r == t
    ensures Bookmarked(t, userId, videoId) ==> |r| == |t| - 1
  {
    match FirstIndex(t, Matches(userId, videoId))
    case None => t
    case Some(k) => t[..k] + t[k + 1..]
  }

  /** Exactly one row goes, and it is the first match: every earlier row differs. */
  lemma RemoveFirstDeletesFirstMatch(t: seq<Row<BookmarkFields>>, userId: int, videoId: string)
    requires Bookmarked(t, userId, videoId)
    ensures exists k | 0 <= k < |t| ::
              Matches(userId, videoId)(t[k]) &&
              (forall j | 0 <= j < k :: !Matches(userId, videoId)(t[j])) &&
              RemoveFirst(t, userId, videoId) == t[..k] + t[k + 1..]
  {
    var k := FirstIndex(t, Matches(userId, videoId)).value;
    assert Matches(userId, videoId)(t[k]);
  }

  /** Another user's bookmarks are untouched by a removal. */
  lemma RemoveFirstKeepsOthers(t: seq<Row<BookmarkFields>>, userId: int, videoId: string, other: int)
    requires other != userId
    ensures OwnedBy(RemoveFirst(t, userId, videoId), other) == OwnedBy(t, other)
  {
    match FirstIndex(t, Matches(userId, videoId))
    case None =>
    case Some(k) =>
      var mine := (row: Row<BookmarkFields>) => row.userId == other;
      assert t == t[..k] + [t[k]] + t[k + 1..];
      FilterAppend(t[..k] + [t[k]], t[k + 1..], mine);
      FilterAppend(t[..k], [t[k]], mine);
      FilterAppend(t[..k], t[k + 1..], mine);
      assert Filter([t[k]], mine) == [] + Filter([], mine);
  }

  /** With two matching rows, removing one leaves the video bookmarked. */
  lemma DuplicateStaysBookmarked(t: seq<Row<BookmarkFields>>, userId: int, videoId: string, i: nat, j: nat)
    requires i < j < |t|
    requires Matches(userId, videoId)(t[i]) && Matches(userId, videoId)(t[j])
    ensures Bookmarked(RemoveFirst(t, userId, videoId), userId, videoId)
  {
    var k := FirstIndex(t, Matches(userId, videoId)).value;
    var r := RemoveFirst(t, userId, videoId);
    assert k <= i;
    assert r[j - 1] == t[j];
  }

  /** With a single matching row, removing it leaves the video unbookmarked. */
  lemma SingleMatchUnbookmarks(t: seq<Row<BookmarkFields>>, userId: int, videoId: string, i: nat)
    requires i < |t| && Matches(userId, videoId)(t[i])
    requires forall j | 0 <= j < |t| && j != i :: !Matches(userId, videoId)(t[j])
    ensures !Bookmarked(RemoveFirst(t, userId, videoId), userId, videoId)
  {
    var k := FirstIndex(t, Matches(userId, videoId)).value;
    var r := RemoveFirst(t, userId, videoId);
    assert k == i;
    forall m | 0 <= m < |r|
      ensures !Matches(userId, videoId)(r[m])
    {
      assert r[m] == t[if m < k then m else m + 1];
    }
  }

  // ---------------------------------------------------------------- the store

  /** A snapshot of every field of the store, so a method can state its whole new state. */
  datatype Tables = Tables(
    users: seq<User>, bookmarks: seq<Row<BookmarkFields>>, studySessions: seq<Row<SessionFields>>,
    notes: seq<Row<NoteFields>>, tasks: seq<Row<TaskFields>>, flashcards: seq<Row<FlashcardFields>>,
    schedules: seq<Row<ScheduleFields>>,
    currentUserId: nat, currentBookmarkId: nat, currentSessionId: nat, currentNoteId: nat,
    currentTaskId: nat, currentFlashcardId: nat, currentScheduleId: nat)

  class MemStorage {
    var users: seq<User>
    var bookmarks: seq<Row<BookmarkFields>>
    var studySessions: seq<Row<SessionFields>>
    var notes: seq<Row<NoteFields>>
    var tasks: seq<Row<TaskFields>>
    var flashcards: seq<Row<FlashcardFields>>
    var schedules: seq<Row<ScheduleFields>>
    var currentUserId: nat
    var currentBookmarkId: nat
    var currentSessionId: nat
    var currentNoteId: nat
    var currentTaskId: nat
    var currentFlashcardId: nat
    var currentScheduleId: nat

    function State(): Tables
      reads this
    {
      Tables(users, bookmarks, studySessions, notes, tasks, flashcards, schedules,
             currentUserId, currentBookmarkId, currentSessionId, currentNoteId,
             currentTaskId, currentFlashcardId, currentScheduleId)
    }

    /** Every table's ids are unique, increasing and below its counter; counters start at 1. */
    predicate Valid()
      reads this
    {
      currentUserId >= 1 && currentBookmarkId >= 1 && currentSessionId >= 1 && currentNoteId >= 1 &&
      currentTaskId >= 1 && currentFlashcardId >= 1 && currentScheduleId >= 1 &&
      UserIdsBelow(users, currentUserId) && IdsBelow(bookmarks, currentBookmarkId) &&
      IdsBelow(studySessions, currentSessionId) && IdsBelow(notes, currentNoteId) &&
      IdsBelow(tasks, currentTaskId) && IdsBelow(flashcards, currentFlashcardId) &&
      IdsBelow(schedules, currentScheduleId)
    }

    /** Empty tables, counters at 1, then the demo user. */
    constructor()
      ensures Valid()
      ensures users == [User(1, "demo", "demo")] && currentUserId == 2
      ensures bookmarks == [] && studySessions == [] && notes == [] && tasks == [] &&
              flashcards == [] && schedules == []
      ensures currentBookmarkId == 1 && currentSessionId == 1 && currentNoteId == 1 &&
              currentTaskId == 1 && currentFlashcardId == 1 && currentScheduleId == 1
    {
      users := [];
      bookmarks := [];
      studySessions := [];
      notes := [];
      tasks := [];
      flashcards := [];
      schedules := [];
      currentUserId := 1;
      currentBookmarkId := 1;
      currentSessionId := 1;
      currentNoteId := 1;
      currentTaskId := 1;
      currentFlashcardId := 1;
      currentScheduleId := 1;
      new;
      var _ := CreateUser("demo", "demo");
    }

    /** `users.get(id)`. */
    function GetUser(id: int): (r: Option<User>)
      reads this
      ensures r.Some? ==> r.value in users && r.value.id == id
      ensures r.None? <==> forall i | 0 <= i < |users| :: users[i].id != id
    {
      match FirstIndex(users, (u: User) => u.id == id)
      case None => None
      case Some(k) => Some(users[k])
    }

    /** The first user, in insertion order, with that username. */
    function GetUserByUsername(username: string): (r: Option<User>)
      reads this
      ensures r.None? <==> forall i | 0 <= i < |users| :: users[i].username != username
      ensures r.Some? ==> exists k | 0 <= k < |users| ::
                users[k] == r.value && r.value.username == username &&
                forall j | 0 <= j < k :: users[j].username != username
    {
      match FirstIndex(users, (u: User) => u.username == username)
      case None => None
      case Some(k) => Some(users[k])
    }

    method CreateUser(username: string, password: string) returns (user: User)
      requires Valid()
      modifies this
      ensures Valid()
      ensures user == User(old(currentUserId), username, password)
      ensures State() == old(State()).(users := old(users) + [user], currentUserId := old(currentUserId) + 1)
    {
      user := User(currentUserId, username, password);
      UserAppendKeepsIds(users, currentUserId, user);
      users := users + [user];
      currentUserId := currentUserId + 1;
    }

    function GetBookmarks(userId: int): (r: seq<Row<BookmarkFields>>)
      reads this
      ensures forall b :: b in r <==> b in bookmarks && b.userId == userId
      ensures IsSubsequence(r, bookmarks)
    {
      OwnedBy(bookmarks, userId)
    }

    /** No duplicate check: the same video can be bookmarked twice. */
    method AddBookmark(userId: int, bookmark: BookmarkFields) returns (row: Row<BookmarkFields>)
      requires Valid()
      modifies this
      ensures Valid()
      ensures row == Row(old(currentBookmarkId), userId, bookmark)
      ensures State() == old(State()).(bookmarks := old(bookmarks) + [row],
                                       currentBookmarkId := old(currentBookmarkId) + 1)
      ensures IsBookmarked(userId, bookmark.videoId)
    {
      row := Row(currentBookmarkId, userId, bookmark);
      AppendKeepsIds(bookmarks, currentBookmarkId, row);
      bookmarks := bookmarks + [row];
      currentBookmarkId := currentBookmarkId + 1;
      assert Matches(userId, bookmark.videoId)(bookmarks[|bookmarks| - 1]);
    }

    method RemoveBookmark(userId: int, videoId: string)
      requires Valid()
      modifies this
      ensures Valid()
      ensures State() == old(State()).(bookmarks := RemoveFirst(old(bookmarks), userId, videoId))
    {
      var found := FirstIndex(bookmarks, Matches(userId, videoId));
      if found.Some? {
        DeleteKeepsIds(bookmarks, currentBookmarkId, found.value);
        bookmarks := bookmarks[..found.value] + bookmarks[found.value + 1..];
      }
    }

    /** Whether one of the user's bookmarks is for this video. */
    predicate IsBookmarked(userId: int, videoId: string)
      reads this
      ensures IsBookmarked(userId, videoId) <==>
                exists b :: b in GetBookmarks(userId) && b.fields.videoId == videoId
    {
      var b := GetBookmarks(userId);
      assert forall i | 0 <= i < |bookmarks| :: bookmarks[i] in bookmarks;
      Bookmarked(bookmarks, userId, videoId)
    }

    function GetStudySessions(userId: int): (r: seq<Row<SessionFields>>)
      reads this
      ensures forall s :: s in r <==> s in studySessions && s.userId == userId
      ensures IsSubsequence(r, studySessions)
    {
      OwnedBy(studySessions, userId)
    }

    /** An empty or absent subject is stored as `null`. */
    method AddStudySession(userId: int, session: InsertSession) returns (row: Row<SessionFields>)
      requires Valid()
      modifies this
      ensures Valid()
      ensures row == Row(old(currentSessionId), userId, SessionFields(session.duration, OrNull(session.subject)))
      ensures State() == old(State()).(studySessions := old(studySessions) + [row],
                                       currentSessionId := old(currentSessionId) + 1)
      ensures GetTotalStudyTime(userId) == old(GetTotalStudyTime(userId)) + session.duration
      ensures forall u :: u != userId ==> GetTotalStudyTime(u) == old(GetTotalStudyTime(u))
    {
      row := Row(currentSessionId, userId, SessionFields(session.duration, OrNull(session.subject)));
      AppendKeepsIds(studySessions, currentSessionId, row);
      forall u {
        TotalAfterAppend(studySessions, row, u);
      }
      studySessions := studySessions + [row];
      currentSessionId := currentSessionId + 1;
    }

    function GetTotalStudyTime(userId: int): (r: int)
      reads this
      ensures (forall s :: s in studySessions && s.userId == userId ==> s.fields.duration >= 0) ==> r >= 0
      ensures (forall s :: s in studySessions ==> s.userId != userId) ==> r == 0
    {
      TotalDuration(GetStudySessions(userId))
    }

    function GetNotes(userId: int): (r: seq<Row<NoteFields>>)
      reads this
      ensures forall n :: n in r <==> n in notes && n.userId == userId
      ensures IsSubsequence(r, notes)
    {
      OwnedBy(notes, userId)
    }

    method CreateNote(userId: int, note: InsertNote) returns (row: Row<NoteFields>)
      requires Valid()
      modifies this
      ensures Valid()
      ensures row == Row(old(currentNoteId), userId, NoteFields(note.title, note.content, OrNull(note.subject)))
      ensures State() == old(State()).(notes := old(notes) + [row], currentNoteId := old(currentNoteId) + 1)
    {
      row := Row(currentNoteId, userId, NoteFields(note.title, note.content, OrNull(note.subject)));
      AppendKeepsIds(notes, currentNoteId, row);
      notes := notes + [row];
      currentNoteId := currentNoteId + 1;
    }

    function GetTasks(userId: int): (r: seq<Row<TaskFields>>)
      reads this
      ensures forall t :: t in r <==> t in tasks && t.userId == userId
      ensures IsSubsequence(r, tasks)
    {
      OwnedBy(tasks, userId)
    }

    method CreateTask(userId: int, task: InsertTask) returns (row: Row<TaskFields>)
      requires Valid()
      modifies this
      ensures Valid()
      ensures row == Row(old(currentTaskId), userId, NewTask(task))
      ensures State() == old(State()).(tasks := old(tasks) + [row], currentTaskId := old(currentTaskId) + 1)
    {
      row := Row(currentTaskId, userId, NewTask(task));
      AppendKeepsIds(tasks, currentTaskId, row);
      tasks := tasks + [row];
      currentTaskId := currentTaskId + 1;
    }

    function GetFlashcards(userId: int): (r: seq<Row<FlashcardFields>>)
      reads this
      ensures forall c :: c in r <==> c in flashcards && c.userId == userId
      ensures IsSubsequence(r, flashcards)
    {
      OwnedBy(flashcards, userId)
    }

    method CreateFlashcard(userId: int, card: FlashcardFields) returns (row: Row<FlashcardFields>)
      requires Valid()
      modifies this
      ensures Valid()
      ensures row == Row(old(currentFlashcardId), userId, card)
      ensures State() == old(State()).(flashcards := old(flashcards) + [row],
                                       currentFlashcardId := old(currentFlashcardId) + 1)
    {
      row := Row(currentFlashcardId, userId, card);
      AppendKeepsIds(flashcards, currentFlashcardId, row);
      flashcards := flashcards + [row];
      currentFlashcardId := currentFlashcardId + 1;
    }

    function GetSchedules(userId: int): (r: seq<Row<ScheduleFields>>)
      reads this
      ensures forall s :: s in r <==> s in schedules && s.userId == userId
      ensures IsSubsequence(r, schedules)
    {
      OwnedBy(schedules, userId)
    }

    method CreateSchedule(userId: int, item: ScheduleFields) returns (row: Row<ScheduleFields>)
      requires Valid()
      modifies this
      ensures Valid()
      ensures row == Row(old(currentScheduleId), userId, item)
      ensures State() == old(State()).(schedules := old(schedules) + [row],
                                       currentScheduleId := old(currentScheduleId) + 1)
    {
      row := Row(currentScheduleId, userId, item);
      AppendKeepsIds(schedules, currentScheduleId, row);
      schedules := schedules + [row];
      currentScheduleId := currentScheduleId + 1;
    }
  }
}
