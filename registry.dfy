/**
 * The connection registry of main.go: a pool mapping client IDs to clients,
 * and point-to-point delivery of one payload to a client's connection. Each
 * pool operation is one atomic step; the mutex that serialises them in the
 * server is not modelled.
 */
module Registry {
  import opened Wrappers

  /**
   * How the transport under a connection behaves when a message is written
   * to it: the writer can be obtained and the write goes through, no writer
   * can be obtained, or the write itself fails.
   */
  datatype Health = Healthy | WriterUnavailable | WriteFailing

  /** A websocket connection, seen as the sequence of text messages written to it. */
  class Connection {
    const health: Health
    var outbox: seq<string>

    constructor (health: Health)
      ensures this.health == health && outbox == []
    {
      this.health := health;
      outbox := [];
    }
  }

  /** A connected client: its ID and its connection. */
  class Client {
    const id: string
    const conn: Connection

    constructor (id: string, conn: Connection)
      ensures this.id == id && this.conn == conn
    {
      this.id := id;
      this.conn := conn;
    }
  }

  /** Why a delivery did not happen. */
  datatype SendError = ClientNotFound | WriterFailed | WriteFailed

  /** The error a write on a connection of the given health reports, if any. */
  function WriteError(h: Health): (e: Option<SendError>)
    ensures e.None? <==> h == Healthy
    ensures e != Some(ClientNotFound)
  {
    match h
    case Healthy => None
    case WriterUnavailable => Some(WriterFailed)
    case WriteFailing => Some(WriteFailed)
  }

  /**
   * The result of SendMessage to `receiverID`: ClientNotFound when no client
   * has that ID, otherwise the error of writing to that client's
   * connection.
   */
  function Delivery(clients: map<string, Client>, receiverID: string): (e: Option<SendError>)
    ensures e == Some(ClientNotFound) <==> receiverID !in clients
    ensures e.None? <==> receiverID in clients && clients[receiverID].conn.health == Healthy
  {
    if receiverID !in clients then Some(ClientNotFound) else WriteError(clients[receiverID].conn.health)
  }

  /** What SendMessage does as written when the receiver is absent. */
  datatype SendAsWritten = NilDereference | Returned(error: Option<SendError>)

  /**
   * SendMessage exactly as main.go writes it: a missing receiver is only
   * logged, and the next statement dereferences the missing client.
   */
  function DeliveryAsWritten(clients: map<string, Client>, receiverID: string): SendAsWritten {
    if receiverID !in clients then NilDereference else Returned(WriteError(clients[receiverID].conn.health))
  }

  /**
   * The two agree whenever the receiver is registered; for an absent
   * receiver the source dereferences nil where the model reports
   * ClientNotFound and writes nothing.
   */
  lemma AbsentReceiverDereferencesNil(clients: map<string, Client>, receiverID: string)
    ensures receiverID !in clients ==> DeliveryAsWritten(clients, receiverID) == NilDereference
    ensures receiverID !in clients ==> Delivery(clients, receiverID) == Some(ClientNotFound)
    ensures receiverID in clients ==> DeliveryAsWritten(clients, receiverID) == Returned(Delivery(clients, receiverID))
  {
  }

  /** The connection each registered ID routes to. */
  function Routes(clients: map<string, Client>): (route: map<string, Connection>)
    ensures route.Keys == clients.Keys
    ensures forall id :: id in clients ==> route[id] == clients[id].conn
  {
    map id | id in clients :: clients[id].conn
  }

  /** The pool of active clients. */
  class Pool {
    var clients: map<string, Client>

    /** Every client is stored under its own ID. */
    ghost predicate Valid()
      reads this
    {
      forall id :: id in clients ==> clients[id].id == id
    }

    /** newPool: an empty registry. */
    constructor ()
      ensures Valid() && clients == map[]
    {
      clients := map[];
    }

    /** AddClient: store `client` under its ID, replacing any client already there. */
    method AddClient(client: Client)
      requires Valid()
      modifies this
      ensures Valid()
      ensures clients == old(clients)[client.id := client]
    {
      clients := clients[client.id := client];
    }

    /** RemoveClient: forget `clientID`; nothing happens when it is absent. */
    method RemoveClient(clientID: string)
      requires Valid()
      modifies this
      ensures Valid()
      ensures clients == old(clients) - {clientID}
    {
      clients := clients - {clientID};
    }

    /**
     * SendMessage: write `message` as one text message to the receiver's
     * connection. The source does not return when the receiver is absent
     * and dereferences nil (main.go:67-70, see DeliveryAsWritten); here that
     * case reports ClientNotFound and writes nothing.
     */
    method SendMessage(receiverID: string, message: string) returns (err: Option<SendError>)
      modifies if receiverID in clients then {clients[receiverID].conn} else {}
      ensures err == Delivery(clients, receiverID)
      ensures receiverID in clients ==>
        clients[receiverID].conn.outbox == old(clients[receiverID].conn.outbox) + (if err.None? then [message] else [])
    {
      if receiverID !in clients {
        return Some(ClientNotFound);
      }
      var receiver := clients[receiverID];
      match receiver.conn.health
      case WriterUnavailable =>
        return Some(WriterFailed);
      case WriteFailing =>
        return Some(WriteFailed);
      case Healthy =>
        receiver.conn.outbox := receiver.conn.outbox + [message];
        return None;
    }
  }

  /** Re-adding an ID keeps only the latest client under it. */
  lemma AddReplaces(clients: map<string, Client>, first: Client, second: Client)
    requires first.id == second.id
    ensures clients[first.id := first][second.id := second] == clients[second.id := second]
    ensures |clients[first.id := first][second.id := second]| == |clients[second.id := second]|
  {
  }

  /** Removing twice is removing once. */
  lemma RemoveIdempotent(clients: map<string, Client>, id: string)
    ensures clients - {id} - {id} == clients - {id}
  {
  }

  /**
   * A session that registers and then deregisters its ID leaves every other
   * ID as it was, and leaves its own ID free, even when another session had
   * registered it before.
   */
  lemma RemoveAfterAdd(clients: map<string, Client>, client: Client)
    ensures clients[client.id := client] - {client.id} == clients - {client.id}
  {
  }
}
