/**
 * The guestbook: a client-side controller over a remote table of messages.
 * The table is modelled as a map from row id to row; every remote call takes
 * an `Outcome` chosen by the environment, so any call may fail.
 */
module Guestbook {
  import opened Wrappers
  import Text
  import Decimal

  /** Row ids: the table's identity column, counting from 1. */
  type Id = i: int | i >= 1 witness 1

  /** A stored row: `author`, `message`, `password` as submitted and the server-assigned `created_at`. */
  datatype Row = Row(author: string, message: string, password: string, createdAt: int)

  /** A row as a `select("*")` returns it: with its id. */
  datatype Entry = Entry(id: Id, row: Row)

  /** How the environment answers one remote call: with data, with `data: null`, or with an error. */
  datatype Outcome = Delivered | NoData | Failed

  /** What a remote call hands back: `data`, a `null` `data`, or an `error`. */
  datatype Reply<T> = Ok(value: T) | Null | Err

  /** No two entries of `s` have the same id. */
  predicate DistinctIds(s: seq<Entry>) {
    forall i, j :: 0 <= i < j < |s| ==> s[i].id != s[j].id
  }

  /** `s` is ordered by `created_at`, newest first. */
  predicate NewestFirst(s: seq<Entry>) {
    forall i, j :: 0 <= i < j < |s| ==> s[i].row.createdAt >= s[j].row.createdAt
  }

  /** `s` lists every row of `rows` exactly once, each with its own id. */
  ghost predicate ListsExactly(s: seq<Entry>, rows: map<Id, Row>) {
    DistinctIds(s) && forall e :: e in s <==> e.id in rows && rows[e.id] == e.row
  }

  /** The answer of `select("*").order("created_at", { ascending: false })` over `rows`. */
  ghost predicate IsOrderedListing(s: seq<Entry>, rows: map<Id, Row>) {
    ListsExactly(s, rows) && NewestFirst(s)
  }

  /** Places `e` in a newest-first list before the first entry that is not newer than it. */
  function InsertNewestFirst(s: seq<Entry>, e: Entry): (r: seq<Entry>)
    requires NewestFirst(s) && DistinctIds(s)
    requires forall x :: x in s ==> x.id != e.id
    ensures NewestFirst(r) && DistinctIds(r)
    ensures |r| == |s| + 1
    ensures forall x :: x in r <==> x in s || x == e
  {
    if s == [] || e.row.createdAt >= s[0].row.createdAt then [e] + s
    else
      assert forall x :: x in s[1..] ==> x in s;
      HeadDominates(s);
      var rest := InsertNewestFirst(s[1..], e);
      ConsNewestFirst(s[0], rest);
      [s[0]] + rest
  }

  /** A head no older than, and with another id than, every entry of a newest-first list extends it. */
  lemma ConsNewestFirst(h: Entry, t: seq<Entry>)
    requires NewestFirst(t) && DistinctIds(t)
    requires forall x :: x in t ==> x.id != h.id && x.row.createdAt <= h.row.createdAt
    ensures NewestFirst([h] + t) && DistinctIds([h] + t)
  {
    var r := [h] + t;
    forall i, j | 0 <= i < j < |r| ensures r[i].row.createdAt >= r[j].row.createdAt && r[i].id != r[j].id {
      assert r[j] == t[j - 1];
      if i > 0 {
        assert r[i] == t[i - 1];
      } else {
        assert r[j] in t;
      }
    }
  }

  /** In a newest-first list with distinct ids, every later entry is no newer than the head and has another id. */
  lemma HeadDominates(s: seq<Entry>)
    requires s != [] && NewestFirst(s) && DistinctIds(s)
    ensures forall x :: x in s[1..] ==> x.id != s[0].id && x.row.createdAt <= s[0].row.createdAt
  {
    forall x | x in s[1..]
      ensures x.id != s[0].id && x.row.createdAt <= s[0].row.createdAt
    {
      var k :| 0 <= k < |s[1..]| && s[1..][k] == x;
      assert s[k + 1] == x;
    }
  }

  /** The ids of the entries of `s`. */
  function IdsOf(s: seq<Entry>): (ids: set<Id>)
    ensures forall e :: e in s ==> e.id in ids
    ensures forall id :: id in ids ==> exists e :: e in s && e.id == id
    ensures |ids| <= |s|
  {
    if s == [] then {} else
      var rest := IdsOf(s[1..]);
      assert forall e :: e in s[1..] ==> e in s;
      {s[0].id} + rest
  }

  /** Distinct ids: the list has as many entries as ids. */
  lemma {:induction false} DistinctIdsCount(s: seq<Entry>)
    requires DistinctIds(s)
    ensures |IdsOf(s)| == |s|
  {
    if s != [] {
      DistinctIdsCount(s[1..]);
      HeadIdsFresh(s);
      assert IdsOf(s) == {s[0].id} + IdsOf(s[1..]);
    }
  }

  /** In a list with distinct ids, the head's id is not among the rest's. */
  lemma HeadIdsFresh(s: seq<Entry>)
    requires s != [] && DistinctIds(s)
    ensures s[0].id !in IdsOf(s[1..])
  {
    forall x | x in s[1..]
      ensures x.id != s[0].id
    {
      var k :| 0 <= k < |s[1..]| && s[1..][k] == x;
      assert s[k + 1] == x;
    }
  }

  /** A listing of the table shows each stored message once: one entry per row, no more, no fewer. */
  lemma ListingShowsEveryRowOnce(s: seq<Entry>, rows: map<Id, Row>)
    requires ListsExactly(s, rows)
    ensures |s| == |rows|
    ensures forall id :: id in rows ==> Entry(id, rows[id]) in s
  {
    DistinctIdsCount(s);
    assert IdsOf(s) == rows.Keys by {
      forall id | id in rows ensures id in IdsOf(s) {
        assert Entry(id, rows[id]) in s;
      }
    }
  }

  /** The remote `guestbook` table. */
  class GuestbookTable {
    var rows: map<Id, Row>
    var nextId: Id

    ghost predicate Valid()
      reads this
    {
      forall id :: id in rows ==> id < nextId
    }

    constructor ()
      ensures Valid() && rows == map[] && nextId == 1
    {
      rows := map[];
      nextId := 1;
    }

    /** `insert([{ author, message, password }])`: a fresh id and `created_at = now`, unless the call fails. */
    method Insert(author: string, message: string, password: string, now: int, outcome: Outcome) returns (reply: Reply<Id>)
      requires Valid()
      modifies this
      ensures Valid()
      ensures outcome == Failed ==> reply == Err && rows == old(rows) && nextId == old(nextId)
      ensures outcome != Failed ==>
                && reply == Ok(old(nextId)) && old(nextId) !in old(rows)
                && rows == old(rows)[old(nextId) := Row(author, message, password, now)]
    {
      if outcome == Failed {
        return Err;
      }
      reply := Ok(nextId);
      rows := rows[nextId := Row(author, message, password, now)];
      nextId := nextId + 1;
    }

    /** `select("*").order("created_at", { ascending: false })`: every row, newest first. */
    method SelectAll(outcome: Outcome) returns (reply: Reply<seq<Entry>>)
      ensures outcome == Failed <==> reply == Err
      ensures outcome == NoData <==> reply == Null
      ensures reply.Ok? ==> IsOrderedListing(reply.value, rows)
    {
      if outcome == Failed {
        return Err;
      } else if outcome == NoData {
        return Null;
      }
      var remaining := rows.Keys;
      var listing: seq<Entry> := [];
      while remaining != {}
        invariant remaining <= rows.Keys
        invariant NewestFirst(listing) && DistinctIds(listing)
        invariant forall e :: e in listing <==> e.id in rows && e.id !in remaining && rows[e.id] == e.row
        decreases |remaining|
      {
        var id :| id in remaining;
        listing := InsertNewestFirst(listing, Entry(id, rows[id]));
        remaining := remaining - {id};
      }
      reply := Ok(listing);
    }

    /** `select("password").eq("id", id).single()`: an error when the call fails or no row has that id. */
    method SelectPassword(id: Id, outcome: Outcome) returns (reply: Reply<string>)
      ensures reply.Ok? <==> outcome == Delivered && id in rows
      ensures reply.Ok? ==> reply.value == rows[id].password
      ensures reply == Null <==> outcome == NoData && id in rows
    {
      if outcome == Failed || id !in rows {
        return Err;
      } else if outcome == NoData {
        return Null;
      }
      reply := Ok(rows[id].password);
    }

    /** `delete().eq("id", id)`: removes that row, unless the call fails. */
    method Delete(id: Id, outcome: Outcome) returns (reply: Reply<()>)
      requires Valid()
      modifies this
      ensures Valid() && nextId == old(nextId)
      ensures outcome == Failed ==> reply == Err && rows == old(rows)
      ensures outcome != Failed ==> reply == Ok(()) && rows == old(rows) - {id}
    {
      if outcome == Failed {
        return Err;
      }
      rows := rows - {id};
      reply := Ok(());
    }
  }

  /**
   * The local check made before any insert: author and message are not blank
   * once trimmed, and the password is at least four UTF-16 code units long.
   */
  predicate ValidSubmission(author: string, message: string, password: string) {
    Text.Trim(author) != "" && Text.Trim(message) != "" && Text.Utf16Length(password) >= 4
  }

  /**
   * A submission passes exactly when author and message each hold a character
   * other than whitespace and the password has four code units; a password of
   * one character never passes, and one of four characters always does.
   */
  lemma ValidSubmissionMeans(author: string, message: string, password: string)
    ensures ValidSubmission(author, message, password) <==>
              && (exists i :: 0 <= i < |author| && !Text.IsJsWhitespace(author[i]))
              && (exists i :: 0 <= i < |message| && !Text.IsJsWhitespace(message[i]))
              && Text.Utf16Length(password) >= 4
    ensures ValidSubmission(author, message, password) ==> |password| >= 2
    ensures |password| >= 4 && !Text.AllWhitespace(author) && !Text.AllWhitespace(message) ==>
              ValidSubmission(author, message, password)
  {
    Text.TrimSpec(author);
    Text.TrimSpec(message);
    var _ := Text.Utf16Length(password);
  }

  /** The message picked for deletion and the password typed for it. */
  datatype DeleteInfo = DeleteInfo(id: Option<Id>, password: string)

  /** The insert request issued by a save and not yet answered: the form values it carries. */
  datatype Submission = Submission(author: string, message: string, password: string)

  /** How a call of `saveMessage` ends before the insert is answered. */
  datatype SaveStart = Ignored | Rejected | Issued

  /** How `deleteMessage` ends. A failed lookup and a wrong password are reported differently. */
  datatype DeleteResult = NotAttempted | LookupFailed | PasswordMismatch | DeleteFailed | Deleted

  /**
   * What `messages` is after a reload answered with `outcome`: kept on an
   * error, `[]` for `data: null`, otherwise every row newest first.
   */
  ghost predicate Reloaded(outcome: Outcome, before: seq<Entry>, after: seq<Entry>, rows: map<Id, Row>) {
    match outcome
    case Failed => after == before
    case NoData => after == []
    case Delivered => IsOrderedListing(after, rows)
  }

  /** `formatDate` from the parts of the date: year, 1-based month and day, joined by dots and not padded. */
  function FormatDate(year: nat, monthIndex: nat, day: nat): string {
    Decimal.NatToString(year) + "." + Decimal.NatToString(monthIndex + 1) + "." + Decimal.NatToString(day)
  }

  /** Without padding the text is still unambiguous: different dates never print alike. */
  lemma FormatDateInjective(y1: nat, m1: nat, d1: nat, y2: nat, m2: nat, d2: nat)
    ensures FormatDate(y1, m1, d1) == FormatDate(y2, m2, d2) ==> y1 == y2 && m1 == m2 && d1 == d2
  {
    var a1, b1, c1 := Decimal.NatToString(y1), Decimal.NatToString(m1 + 1), Decimal.NatToString(d1);
    var a2, b2, c2 := Decimal.NatToString(y2), Decimal.NatToString(m2 + 1), Decimal.NatToString(d2);
    if FormatDate(y1, m1, d1) == FormatDate(y2, m2, d2) {
      assert FormatDate(y1, m1, d1) == a1 + "." + (b1 + "." + c1);
      assert FormatDate(y2, m2, d2) == a2 + "." + (b2 + "." + c2);
      Decimal.SplitAtDot(a1, b1 + "." + c1, a2, b2 + "." + c2);
      Decimal.SplitAtDot(b1, c1, b2, c2);
      Decimal.NatToStringInjective(y1, y2);
      Decimal.NatToStringInjective(m1 + 1, m2 + 1);
      Decimal.NatToStringInjective(d1, d2);
    }
  }

  /** What the list area shows: a spinner, one card per message, or the "no messages yet" notice. */
  datatype ListView = Spinner | Cards(entries: seq<Entry>) | EmptyNotice

  /** The list area as rendered from `isLoading` and `messages`. */
  function ListArea(isLoading: bool, messages: seq<Entry>): ListView {
    if isLoading then Spinner else if |messages| > 0 then Cards(messages) else EmptyNotice
  }

  /**
   * After a delivered reload the list area shows the table: the empty notice
   * when no row is stored, otherwise one card per row, each row exactly once
   * and newest first.
   */
  lemma ListAreaShowsTable(messages: seq<Entry>, rows: map<Id, Row>)
    requires IsOrderedListing(messages, rows)
    ensures ListArea(false, messages) == if |rows| == 0 then EmptyNotice else Cards(messages)
    ensures |rows| > 0 ==> |ListArea(false, messages).entries| == |rows|
    ensures |rows| > 0 ==> NewestFirst(ListArea(false, messages).entries)
    ensures |rows| > 0 ==> forall id :: id in rows ==> Entry(id, rows[id]) in ListArea(false, messages).entries
  {
    ListingShowsEveryRowOnce(messages, rows);
  }

  /** The `Guestbook` component's state and handlers. */
  class GuestbookController {
    const table: GuestbookTable
    var isOpen: bool
    var messages: seq<Entry>
    var author: string
    var message: string
    var password: string
    var deleteInfo: DeleteInfo
    var isSubmitting: bool
    var isLoading: bool
    /** The insert issued by `SaveMessage` and awaiting its answer, if any. */
    var inFlight: Option<Submission>

    /** A save is in flight exactly while `isSubmitting`, and only a submission that passed the check is ever sent. */
    ghost predicate Valid()
      reads this, table
    {
      && table.Valid()
      && (isSubmitting <==> inFlight.Some?)
      && (inFlight.Some? ==> ValidSubmission(inFlight.value.author, inFlight.value.message, inFlight.value.password))
    }

    constructor (table: GuestbookTable)
      requires table.Valid()
      ensures Valid() && this.table == table
      ensures !isOpen && messages == [] && author == "" && message == "" && password == ""
      ensures deleteInfo == DeleteInfo(None, "") && !isSubmitting && isLoading
    {
      this.table := table;
      isOpen := false;
      messages := [];
      author, message, password := "", "", "";
      deleteInfo := DeleteInfo(None, "");
      isSubmitting := false;
      isLoading := true;
      inFlight := None;
    }

    /** `fetchMessages`: reloads the list; on error the previous list stays. Runs on mount and on refresh. */
    method FetchMessages(outcome: Outcome)
      requires Valid()
      modifies this
      ensures Valid() && !isLoading
      ensures Reloaded(outcome, old(messages), messages, table.rows)
      ensures isOpen == old(isOpen) && author == old(author) && message == old(message) && password == old(password)
      ensures deleteInfo == old(deleteInfo) && isSubmitting == old(isSubmitting) && inFlight == old(inFlight)
    {
      isLoading := true;
      var reply := table.SelectAll(outcome);
      match reply {
        case Err =>
        case Null => messages := [];
        case Ok(data) => messages := data;
      }
      isLoading := false;
    }

    /**
     * `saveMessage` up to its `await`: does nothing while a save is in flight;
     * rejects a blank author or message or a short password without touching
     * anything; otherwise issues the insert with the form values as typed.
     */
    method SaveMessage() returns (start: SaveStart)
      requires Valid()
      modifies this
      ensures Valid()
      ensures start == Ignored <==> old(isSubmitting)
      ensures start == Issued <==> !old(isSubmitting) && ValidSubmission(old(author), old(message), old(password))
      ensures start != Issued ==> unchanged(this)
      ensures start == Issued ==> isSubmitting && inFlight == Some(Submission(old(author), old(message), old(password)))
      ensures isOpen == old(isOpen) && messages == old(messages) && author == old(author)
      ensures message == old(message) && password == old(password)
      ensures deleteInfo == old(deleteInfo) && isLoading == old(isLoading)
    {
      if isSubmitting {
        return Ignored;
      }
      isSubmitting := true;
      if !ValidSubmission(author, message, password) {
        isSubmitting := false;
        return Rejected;
      }
      inFlight := Some(Submission(author, message, password));
      start := Issued;
    }

    /**
     * `saveMessage` after its `await`: on success the row is stored, the form
     * is cleared, the dialog closes and the list is reloaded; on error none of
     * that happens. Either way the save is over.
     */
    method InsertAnswered(outcome: Outcome, now: int, reloadOutcome: Outcome)
      requires Valid() && isSubmitting
      modifies this, table
      ensures Valid() && !isSubmitting && inFlight == None
      ensures outcome == Failed ==>
                && table.rows == old(table.rows)
                && isOpen == old(isOpen) && messages == old(messages) && author == old(author)
                && message == old(message) && password == old(password) && isLoading == old(isLoading)
      ensures outcome != Failed ==>
                && var s := old(inFlight).value;
                && old(table.nextId) !in old(table.rows)
                && table.rows == old(table.rows)[old(table.nextId) := Row(s.author, s.message, s.password, now)]
                && author == "" && message == "" && password == "" && !isOpen
                && Reloaded(reloadOutcome, old(messages), messages, table.rows) && !isLoading
      ensures deleteInfo == old(deleteInfo)
    {
      var s := inFlight.value;
      inFlight := None;
      isSubmitting := false;
      var reply := table.Insert(s.author, s.message, s.password, now, outcome);
      if reply.Ok? {
        author, message, password := "", "", "";
        isOpen := false;
        FetchMessages(reloadOutcome);
      }
    }

    /**
     * `deleteMessage`: needs both an id and a password; looks the row's
     * password up and deletes only when it equals the typed one. After a
     * deletion the choice is reset and the list reloaded; otherwise nothing
     * changes.
     */
    method DeleteMessage(lookupOutcome: Outcome, deleteOutcome: Outcome, reloadOutcome: Outcome)
      returns (result: DeleteResult)
      requires Valid()
      modifies this, table
      ensures Valid()
      ensures result == NotAttempted <==> old(deleteInfo).id == None || old(deleteInfo).password == ""
      ensures result == LookupFailed <==>
                result != NotAttempted && (lookupOutcome != Delivered || old(deleteInfo).id.value !in old(table.rows))
      ensures result == PasswordMismatch <==>
                && result != NotAttempted && result != LookupFailed
                && old(table.rows)[old(deleteInfo).id.value].password != old(deleteInfo).password
      ensures result == Deleted <==>
                && old(deleteInfo).id.Some? && old(deleteInfo).password != ""
                && lookupOutcome == Delivered && deleteOutcome != Failed
                && old(deleteInfo).id.value in old(table.rows)
                && old(table.rows)[old(deleteInfo).id.value].password == old(deleteInfo).password
      ensures result == Deleted ==>
                && table.rows == old(table.rows) - {old(deleteInfo).id.value}
                && deleteInfo == DeleteInfo(None, "")
                && Reloaded(reloadOutcome, old(messages), messages, table.rows) && !isLoading
      ensures result != Deleted ==>
                table.rows == old(table.rows) && deleteInfo == old(deleteInfo)
                && messages == old(messages) && isLoading == old(isLoading)
      ensures isOpen == old(isOpen) && author == old(author) && message == old(message) && password == old(password)
      ensures isSubmitting == old(isSubmitting) && inFlight == old(inFlight)
    {
      if deleteInfo.id == None || deleteInfo.password == "" {
        return NotAttempted;
      }
      var id := deleteInfo.id.value;
      var stored := table.SelectPassword(id, lookupOutcome);
      if !stored.Ok? {
        return LookupFailed;
      }
      if stored.value != deleteInfo.password {
        return PasswordMismatch;
      }
      var reply := table.Delete(id, deleteOutcome);
      if reply.Err? {
        return DeleteFailed;
      }
      deleteInfo := DeleteInfo(None, "");
      FetchMessages(reloadOutcome);
      result := Deleted;
    }

    /** The trash button of a message: picks its id and keeps the password typed so far. */
    method ChooseForDeletion(id: Id)
      requires Valid()
      modifies this
      ensures Valid()
      ensures deleteInfo == DeleteInfo(Some(id), old(deleteInfo).password)
      ensures unchanged(this`messages, this`author, this`message, this`password, this`isOpen)
      ensures unchanged(this`isSubmitting, this`isLoading, this`inFlight)
    {
      deleteInfo := deleteInfo.(id := Some(id));
    }

    /** The password field of the delete dialog: keeps the chosen id. */
    method TypeDeletePassword(typed: string)
      requires Valid()
      modifies this
      ensures Valid()
      ensures deleteInfo == DeleteInfo(old(deleteInfo).id, typed)
      ensures unchanged(this`messages, this`author, this`message, this`password, this`isOpen)
      ensures unchanged(this`isSubmitting, this`isLoading, this`inFlight)
    {
      deleteInfo := deleteInfo.(password := typed);
    }

    /** The three fields of the message form. */
    method TypeForm(newAuthor: string, newMessage: string, newPassword: string)
      requires Valid()
      modifies this
      ensures Valid()
      ensures author == newAuthor && message == newMessage && password == newPassword
      ensures unchanged(this`messages, this`deleteInfo, this`isOpen)
      ensures unchanged(this`isSubmitting, this`isLoading, this`inFlight)
    {
      author, message, password := newAuthor, newMessage, newPassword;
    }

    /** The form dialog's `onOpenChange`. */
    method SetOpen(open: bool)
      requires Valid()
      modifies this
      ensures Valid()
      ensures isOpen == open
      ensures unchanged(this`messages, this`author, this`message, this`password, this`deleteInfo)
      ensures unchanged(this`isSubmitting, this`isLoading, this`inFlight)
    {
      isOpen := open;
    }
  }
}
