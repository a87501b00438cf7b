/** The SEND/RECV discipline of one side of an RDMA connection
    (src/network/rdma_transport.c): at most one posted receive and one unfinished send. */
module Rdma {
  import opened Bytes
  import opened Store

  /** Capacity of the registered buffer of each direction. */
  const BUFFER_CAPACITY: nat := 1024 * 1024

  /** One endpoint. `link` names the connection; `wire` holds the messages on their way to the
      peer; `inbox` is a message placed in the posted buffer whose completion is not polled yet;
      `sendDone` is a SEND completion waiting in the completion queue. */
  datatype Endpoint = Endpoint(
    link: nat,
    recvPending: bool,
    sendPending: bool,
    sendDone: bool,
    wire: seq<ByteString>,
    inbox: Option<ByteString>)

  /** What one poll of the completion queue may return: any completion that is ready. */
  datatype Completion = NoCompletion | SendCompletion | RecvCompletion

  datatype CmEvent = NoEvent | Accepting(link: nat) | RouteResolved | Established | Disconnected | CmFailure

  function NewEndpoint(link: nat): Endpoint {
    Endpoint(link, false, false, false, [], None)
  }

  /** `kvs_rdma_post_recv`: refused while a receive is posted. */
  function PostRecv(e: Endpoint): Option<Endpoint> {
    if e.recvPending then None else Some(e.(recvPending := true))
  }

  /** `kvs_rdma_connection_send` and `kvs_rdma_post_send`. */
  function Send(e: Endpoint, data: ByteString): Option<Endpoint> {
    if |data| == 0 || |data| > BUFFER_CAPACITY || e.sendPending then None
    else Some(e.(sendPending := true, wire := e.wire + [data]))
  }

  /** Polling a SEND completion frees the send buffer. */
  function PollSend(e: Endpoint): Option<Endpoint> {
    if !e.sendDone || !e.sendPending then None else Some(e.(sendPending := false, sendDone := false))
  }

  /** Polling a RECV completion ends the posted receive. */
  function PollRecv(e: Endpoint): Option<Endpoint> {
    if e.inbox.None? || !e.recvPending then None else Some(e.(recvPending := false, inbox := None))
  }

  /** Imperative counterpart of `Endpoint`: the flags change in place. */
  class Connection {
    const link: nat
    var recvPending: bool
    var sendPending: bool
    var sendDone: bool
    var wire: seq<ByteString>
    var inbox: Option<ByteString>

    constructor (link: nat)
      ensures View() == NewEndpoint(link)
    {
      this.link := link;
      recvPending, sendPending, sendDone := false, false, false;
      wire, inbox := [], None;
    }

    function View(): Endpoint
      reads this
    {
      Endpoint(link, recvPending, sendPending, sendDone, wire, inbox)
    }

    method Receive() returns (ok: bool)
      modifies this
      ensures ok <==> PostRecv(old(View())).Some?
      ensures View() == if ok then PostRecv(old(View())).value else old(View())
    {
      if recvPending { return false; }
      recvPending := true;
      return true;
    }

    method Submit(data: ByteString) returns (ok: bool)
      modifies this
      ensures ok <==> Send(old(View()), data).Some?
      ensures View() == if ok then Send(old(View()), data).value else old(View())
    {
      if |data| == 0 || |data| > BUFFER_CAPACITY { return false; }
      if sendPending { return false; }
      wire := wire + [data];
      sendPending := true;
      return true;
    }

    /** `kvs_rdma_connection_poll_completion` when the queue returns `completion`. */
    method Poll(completion: Completion) returns (ok: bool, data: ByteString)
      modifies this
      ensures completion.NoCompletion? ==> ok && View() == old(View())
      ensures completion.SendCompletion? ==>
                && (ok <==> PollSend(old(View())).Some?)
                && View() == if ok then PollSend(old(View())).value else old(View())
      ensures completion.RecvCompletion? ==>
                && (ok <==> PollRecv(old(View())).Some?)
                && View() == (if ok then PollRecv(old(View())).value else old(View()))
                && (ok ==> Some(data) == old(inbox))
    {
      data := [];
      match completion
      case NoCompletion =>
        ok := true;
      case SendCompletion =>
        if !sendDone || !sendPending { return false, data; }
        sendPending, sendDone := false, false;
        ok := true;
      case RecvCompletion =>
        if inbox.None? || !recvPending { return false, data; }
        data := inbox.value;
        recvPending, inbox := false, None;
        ok := true;
    }
  }
}
