/**
 * The socket server of server/index.ts: the `connection` handler that sends the
 * history window to the new socket, the `message` handler that normalises,
 * persists and then broadcasts, and the `/api/upload` endpoint.
 *
 * The Prisma table becomes the `rows` field, each connected socket an inbox of
 * the events emitted to it. What the store assigns to a new row (`id`,
 * `createdAt`) and whether the write succeeds are parameters of the handler.
 */
module Relay {
  import opened Options
  import opened Messages
  import Naming

  type SocketId = string

  /** The payload of a `message` event; absent fields are `None`. */
  datatype Incoming = Incoming(text: Option<string>, imageUrl: Option<string>, sender: string)

  /** What a socket receives: the `init` history or one broadcast `message`. */
  datatype Event = Init(history: seq<Message>) | Broadcast(message: Message)

  /** Result of `prisma.message.create`: the store-assigned fields, or a rejected write. */
  datatype Persist = Persisted(id: int, createdAt: int) | PersistFailed

  /** `field || null`: an absent or empty string is stored as null, anything else as is. */
  function OrNull(field: Option<string>): (r: Option<string>)
    ensures r == None <==> (field == None || field == Some(""))
    ensures r != None ==> r == field && r.value != ""
  {
    match field
    case Some(s) => if s == "" then None else field
    case None => None
  }

  /** The row written for an incoming message, given what the store assigns. */
  function Normalise(data: Incoming, id: int, createdAt: int): (m: Message)
    ensures m.id == id && m.createdAt == createdAt && m.sender == data.sender
    ensures m.text == OrNull(data.text) && m.imageUrl == OrNull(data.imageUrl)
  {
    Message(id, OrNull(data.text), OrNull(data.imageUrl), data.sender, createdAt)
  }

  /** `io.emit`: append `e` to every connected socket's inbox. */
  function EmitAll(inboxes: map<SocketId, seq<Event>>, e: Event): (r: map<SocketId, seq<Event>>)
    ensures r.Keys == inboxes.Keys
    ensures forall s :: s in inboxes ==> |r[s]| == |inboxes[s]| + 1 && r[s][|inboxes[s]|] == e
  {
    map s | s in inboxes :: inboxes[s] + [e]
  }

  /** Every socket, and no other, receives `e` exactly once, after what it had already received. */
  lemma EmitAllReachesEverySocket(inboxes: map<SocketId, seq<Event>>, e: Event)
    ensures EmitAll(inboxes, e).Keys == inboxes.Keys
    ensures forall s :: s in inboxes ==>
      |EmitAll(inboxes, e)[s]| == |inboxes[s]| + 1 &&
      EmitAll(inboxes, e)[s][..|inboxes[s]|] == inboxes[s] &&
      EmitAll(inboxes, e)[s][|inboxes[s]|] == e
  {
    var r := EmitAll(inboxes, e);
    forall s | s in inboxes ensures r[s][..|inboxes[s]|] == inboxes[s] {
      assert r[s] == inboxes[s] + [e];
    }
  }

  /** A message with neither text nor image is still written and broadcast: no field is required. */
  lemma EmptyMessageIsNotRejected(text: Option<string>, imageUrl: Option<string>, sender: string, id: int, createdAt: int)
    requires text == None || text == Some("")
    requires imageUrl == None || imageUrl == Some("")
    ensures var m := Normalise(Incoming(text, imageUrl, sender), id, createdAt);
      m.text == None && m.imageUrl == None && m.sender == sender && m.id == id
  {
  }

  class Server {
    /** The `Message` table, in creation order. */
    var rows: seq<Message>
    /** Everything emitted to each connected socket, oldest first. */
    var inboxes: map<SocketId, seq<Event>>

    ghost predicate Valid()
      reads this
    {
      StoreOrdered(rows)
    }

    constructor (stored: seq<Message>)
      requires StoreOrdered(stored)
      ensures Valid() && rows == stored && inboxes == map[]
    {
      rows := stored;
      inboxes := map[];
    }

    /**
     * `io.on('connection')`: the new socket gets the history window and nothing
     * else changes. A failed history query is only logged; the socket stays
     * connected, with its `message` handler installed, and has received nothing.
     */
    method Connect(sock: SocketId, historyLoaded: bool)
      requires Valid() && sock !in inboxes
      modifies this
      ensures Valid() && rows == old(rows)
      ensures inboxes == old(inboxes)[sock := if historyLoaded then [Init(OldestWindow(rows, HistoryLimit))] else []]
    {
      var received: seq<Event> := [];
      if historyLoaded {
        var messages := OldestWindow(rows, HistoryLimit);
        received := [Init(messages)];
      }
      inboxes := inboxes[sock := received];
    }

    /**
     * A row written to the `Message` table by another client, such as the chat
     * view's direct insert. The server is not told: the row is stored, and only
     * sockets that connect afterwards see it, in their history window.
     */
    method InsertedElsewhere(m: Message)
      requires Valid() && MayFollow(rows, m.id, m.createdAt)
      modifies this
      ensures Valid() && rows == old(rows) + [m] && inboxes == old(inboxes)
    {
      rows := rows + [m];
    }

    /**
     * `socket.on('message')` on socket `from`: write the normalised row, then emit
     * the written row to every socket, `from` included. A failed write is only
     * logged: nothing is stored and nothing is emitted.
     */
    method OnMessage(from: SocketId, data: Incoming, outcome: Persist)
      requires Valid() && from in inboxes
      requires outcome.Persisted? ==> MayFollow(rows, outcome.id, outcome.createdAt)
      modifies this
      ensures Valid()
      ensures outcome.PersistFailed? ==> rows == old(rows) && inboxes == old(inboxes)
      ensures outcome.Persisted? ==>
        var m := Normalise(data, outcome.id, outcome.createdAt);
        rows == old(rows) + [m] && inboxes == EmitAll(old(inboxes), Broadcast(m))
      ensures outcome.Persisted? ==>
        inboxes[from] == old(inboxes)[from] + [Broadcast(rows[|rows| - 1])]
    {
      match outcome
      case PersistFailed =>
      case Persisted(id, createdAt) =>
        var message := Normalise(data, id, createdAt);
        rows := rows + [message];
        inboxes := EmitAll(inboxes, Broadcast(message));
    }
  }

  /** An uploaded file as multer hands it over. */
  datatype UploadedFile = UploadedFile(originalname: string, mimetype: string, buffer: seq<bv8>)

  /** Result of the storage `upload` call: its public URL, a returned error, or a thrown one. */
  datatype StorageResult = Stored(publicUrl: string) | StorageError(message: string) | StorageThrew

  datatype Body = Url(url: string) | Error(error: string)

  /** The HTTP reply, and the name the file was stored under when the storage was called. */
  datatype UploadReply = UploadReply(status: int, body: Body, storedAs: Option<string>)

  /**
   * `POST /api/upload` at time `now`: no file is a 400 and no storage call;
   * otherwise the file goes to storage as `<now>-<originalname>` and the reply is
   * its URL, the storage error's message (500) or 'Upload failed' (500).
   */
  function Upload(file: Option<UploadedFile>, now: nat, storage: StorageResult): (r: UploadReply)
    ensures file == None ==> r == UploadReply(400, Error("No file provided"), None)
    ensures file != None ==> r.storedAs == Some(Naming.FileName(now, file.value.originalname))
    ensures r.status == 200 <==> file != None && storage.Stored?
    ensures r.status == 200 ==> r.body == Url(storage.publicUrl)
    ensures file != None && storage.StorageError? ==> r.body == Error(storage.message) && r.status == 500
    ensures file != None && storage.StorageThrew? ==> r.body == Error("Upload failed") && r.status == 500
  {
    match file
    case None => UploadReply(400, Error("No file provided"), None)
    case Some(f) =>
      var fileName := Naming.FileName(now, f.originalname);
      match storage
      case StorageThrew => UploadReply(500, Error("Upload failed"), Some(fileName))
      case StorageError(message) => UploadReply(500, Error(message), Some(fileName))
      case Stored(url) => UploadReply(200, Url(url), Some(fileName))
  }

  /** The name handed to storage carries the original file name back out unchanged. */
  lemma UploadKeepsOriginalName(f: UploadedFile, now: nat, storage: StorageResult)
    ensures var r := Upload(Some(f), now, storage);
      r.storedAs.Some? && Naming.SplitFileName(r.storedAs.value) == Some((Naming.DecimalString(now), f.originalname))
  {
    Naming.FileNameRoundTrip(now, f.originalname);
  }

  /**
   * A scenario: two sockets are connected, one sends `{text: "hi", sender: "shfq"}`,
   * the store assigns id 1 at time 1000, and both sockets receive that record.
   */
  method HelloScenario() returns (a: seq<Event>, b: seq<Event>)
    ensures a == [Init([]), Broadcast(Message(1, Some("hi"), None, "shfq", 1000))]
    ensures b == a
  {
    var server := new Server([]);
    server.Connect("a", true);
    server.Connect("b", true);
    server.OnMessage("a", Incoming(Some("hi"), None, "shfq"), Persisted(1, 1000));
    a, b := server.inboxes["a"], server.inboxes["b"];
  }
}
