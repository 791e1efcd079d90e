/**
 * The chat view of components/Chat.tsx: its message list, the realtime insert
 * merge that de-duplicates by `id`, the send guard, the image-upload flow and the
 * "is this my message" test.
 *
 * The Supabase table is `Messages`' ordered row sequence; the rows this view asks
 * Supabase to insert, and the file names it asks storage to upload, are recorded
 * in the `inserts` and `uploads` fields. Whether a query or an upload succeeds is
 * a parameter.
 */
module ChatClient {
  import opened Options
  import opened Messages
  import Text
  import Naming

  /** Does some message in `list` carry `id`? (`prev.some((m) => m.id === id)`) */
  function HasId(list: seq<Message>, id: int): (r: bool)
    ensures r <==> exists k :: 0 <= k < |list| && list[k].id == id
  {
    if list == [] then false
    else if list[0].id == id then true
    else
      assert forall k :: 1 <= k < |list| ==> list[k] == list[1..][k - 1];
      HasId(list[1..], id)
  }

  /**
   * The realtime INSERT updater: keep `prev` if the id is known, else append.
   * The list only grows, by at most one entry, and afterwards holds the id.
   */
  function Merge(prev: seq<Message>, m: Message): (r: seq<Message>)
    ensures |prev| <= |r| <= |prev| + 1 && r[..|prev|] == prev
    ensures HasId(r, m.id)
  {
    if HasId(prev, m.id) then prev
    else
      assert (prev + [m])[|prev|] == m;
      prev + [m]
  }

  /** A known id leaves the list exactly as it was. */
  lemma MergeKnownId(prev: seq<Message>, m: Message, k: nat)
    requires k < |prev| && prev[k].id == m.id
    ensures Merge(prev, m) == prev
  {
  }

  /** An unknown id is appended at the end; every earlier entry keeps its place. */
  lemma MergeNewId(prev: seq<Message>, m: Message)
    requires forall k :: 0 <= k < |prev| ==> prev[k].id != m.id
    ensures |Merge(prev, m)| == |prev| + 1
    ensures Merge(prev, m)[..|prev|] == prev && Merge(prev, m)[|prev|] == m
  {
    assert !HasId(prev, m.id);
    assert (prev + [m])[..|prev|] == prev;
  }

  /** After a merge the message's id is always present, and nothing was removed. */
  lemma MergeKeepsAndContains(prev: seq<Message>, m: Message)
    ensures HasId(Merge(prev, m), m.id)
    ensures |prev| <= |Merge(prev, m)| && Merge(prev, m)[..|prev|] == prev
  {
    if !HasId(prev, m.id) {
      assert (prev + [m])[|prev|] == m;
      assert (prev + [m])[..|prev|] == prev;
    }
  }

  /** Receiving the same insert twice is the same as receiving it once. */
  lemma MergeIdempotent(prev: seq<Message>, m: Message)
    ensures Merge(Merge(prev, m), m) == Merge(prev, m)
  {
    MergeKeepsAndContains(prev, m);
  }

  /** Pairwise distinct ids stay pairwise distinct. */
  lemma MergeKeepsIdsDistinct(prev: seq<Message>, m: Message)
    requires DistinctIds(prev)
    ensures DistinctIds(Merge(prev, m))
  {
    var r := Merge(prev, m);
    if !HasId(prev, m.id) {
      forall i, j | 0 <= i < j < |r| ensures r[i].id != r[j].id {
        if j == |prev| {
          assert r[j] == m && r[i] == prev[i];
        } else {
          assert r[i] == prev[i] && r[j] == prev[j];
        }
      }
    }
  }

  /** `msg.sender.toLowerCase() === userName.toLowerCase()`. */
  function IsMine(sender: string, userName: string): (r: bool)
    ensures r <==> (|sender| == |userName| &&
      forall i :: 0 <= i < |sender| ==> Text.LowerChar(sender[i]) == Text.LowerChar(userName[i]))
  {
    var a, b := Text.ToLower(sender), Text.ToLower(userName);
    assert |a| == |b| ==> (a == b <==> forall i :: 0 <= i < |a| ==> a[i] == b[i]);
    a == b
  }

  /** Two senders that lower-case alike are both mine or both not. */
  lemma IsMineDependsOnlyOnLowerCase(s1: string, s2: string, userName: string)
    requires Text.ToLower(s1) == Text.ToLower(s2)
    ensures IsMine(s1, userName) == IsMine(s2, userName)
  {
    var a, b := Text.ToLower(s1), Text.ToLower(s2);
    forall i | 0 <= i < |s1| ensures Text.LowerChar(s1[i]) == Text.LowerChar(s2[i]) {
      assert a[i] == b[i];
    }
  }

  /** The case a sender typed their name in does not change whose message it is. */
  lemma IsMineIgnoresCase(sender: string, userName: string)
    ensures IsMine(Text.ToUpper(sender), userName) == IsMine(sender, userName)
  {
    Text.LowerForgetsCase(sender);
    IsMineDependsOnlyOnLowerCase(Text.ToUpper(sender), sender, userName);
  }

  /** The send button's `disabled={!input.trim()}`. */
  function SendDisabled(input: string): (r: bool)
    ensures r <==> Text.AllWhitespace(input)
  {
    Text.Trim(input) == ""
  }

  /** A file picked in the hidden file input. */
  datatype PickedFile = PickedFile(name: string, mimeType: string)

  /** Result of the storage upload: the object's public URL, a returned error, or a thrown one. */
  datatype UploadResult = Uploaded(publicUrl: string) | UploadError | UploadThrew

  /** A row this view asks Supabase to insert (the store fills in `id` and `createdAt`). */
  datatype NewRow = NewRow(text: Option<string>, imageUrl: Option<string>, sender: string)

  class ChatView {
    const userName: string
    var messages: seq<Message>
    var input: string
    var isUploading: bool
    /** Insert requests sent to the `Message` table, in order. */
    var inserts: seq<NewRow>
    /** File names sent to the `chat-images` bucket, in order. */
    var uploads: seq<string>

    /** Two list entries never share an id. */
    ghost predicate Valid()
      reads this
    {
      DistinctIds(messages)
    }

    constructor (userName: string)
      ensures Valid() && this.userName == userName
      ensures messages == [] && input == "" && !isUploading && inserts == [] && uploads == []
    {
      this.userName := userName;
      messages := [];
      input := "";
      isUploading := false;
      inserts := [];
      uploads := [];
    }

    /** The text field's `onChange`. */
    method EditInput(value: string)
      modifies this
      ensures input == value
      ensures messages == old(messages) && isUploading == old(isUploading)
      ensures inserts == old(inserts) && uploads == old(uploads)
    {
      input := value;
    }

    /**
     * `loadMessages`: the query returns the oldest `HistoryLimit` rows of the
     * table, ascending; when data comes back it replaces the whole list. On an
     * error the list is left as it is.
     */
    method LoadMessages(table: seq<Message>, loaded: bool)
      requires Valid() && StoreOrdered(table)
      modifies this
      ensures Valid()
      ensures loaded ==> messages == OldestWindow(table, HistoryLimit)
      ensures loaded ==> |messages| <= HistoryLimit && StoreOrdered(messages)
      ensures !loaded ==> messages == old(messages)
      ensures input == old(input) && isUploading == old(isUploading)
      ensures inserts == old(inserts) && uploads == old(uploads)
    {
      if loaded {
        var data := OldestWindow(table, HistoryLimit);
        OrderedHasDistinctIds(data);
        messages := data;
      }
    }

    /** The realtime INSERT callback. */
    method OnInsert(m: Message)
      requires Valid()
      modifies this
      ensures Valid()
      ensures messages == Merge(old(messages), m)
      ensures input == old(input) && isUploading == old(isUploading)
      ensures inserts == old(inserts) && uploads == old(uploads)
    {
      MergeKeepsIdsDistinct(messages, m);
      messages := Merge(messages, m);
    }

    /**
     * `sendMessage`: blank input does nothing; otherwise the trimmed text is
     * inserted under `userName` and the field is cleared. An insert error is only
     * logged, and the list itself waits for the realtime echo.
     */
    method SendMessage()
      requires Valid()
      modifies this
      ensures Valid() && messages == old(messages) && uploads == old(uploads)
      ensures isUploading == old(isUploading)
      ensures SendDisabled(old(input)) ==> input == old(input) && inserts == old(inserts)
      ensures !SendDisabled(old(input)) ==>
        input == "" && inserts == old(inserts) + [NewRow(Some(Text.Trim(old(input))), None, userName)]
    {
      if Text.Trim(input) == "" {
        return;
      }
      var text := Text.Trim(input);
      input := "";
      inserts := inserts + [NewRow(Some(text), None, userName)];
    }

    /**
     * `handleImageUpload` at time `now`: no file does nothing. Otherwise the file
     * is uploaded as `<now>-<name>`; on success its public URL is inserted as an
     * image message under `userName`, on an upload error nothing is inserted,
     * and in every case `isUploading` is false again when the handler ends.
     */
    method HandleImageUpload(file: Option<PickedFile>, now: nat, result: UploadResult)
      requires Valid()
      modifies this
      ensures Valid() && messages == old(messages) && input == old(input)
      ensures file == None ==>
        isUploading == old(isUploading) && inserts == old(inserts) && uploads == old(uploads)
      ensures file != None ==> !isUploading
      ensures file != None ==> uploads == old(uploads) + [Naming.FileName(now, file.value.name)]
      ensures file != None && result.Uploaded? ==>
        inserts == old(inserts) + [NewRow(None, Some(result.publicUrl), userName)]
      ensures !result.Uploaded? ==> inserts == old(inserts)
    {
      if file == None {
        return;
      }
      isUploading := true;
      var fileName := Naming.FileName(now, file.value.name);
      uploads := uploads + [fileName];
      match result {
        case UploadError =>
        case UploadThrew =>
        case Uploaded(url) =>
          inserts := inserts + [NewRow(None, Some(url), userName)];
      }
      isUploading := false;
    }
  }
}
