/**
 * The store's per-connection loop: every request the framed stream yields is
 * answered, skipped or reported, and the responses go back on the same stream.
 */
module Store {
  import opened Io
  import opened LittleEndian
  import P = Payloads
  import M = Messages

  const MEMORY_CAPACITY: int := 200

  /** The `ObjectSpec` placed in every create response: every field zero or false. */
  const EMPTY_OBJECT_SPEC: P.ObjectSpec := P.ObjectSpec(0, 0, 0, 0, 0, 0, 0, 0, false, 0, false)

  /** `vec![vec![0; 4]; 4]` */
  const ZERO_IPC_HANDLE: seq<seq<byte>> := [[0, 0, 0, 0], [0, 0, 0, 0], [0, 0, 0, 0], [0, 0, 0, 0]]

  /** The response `handle_client` builds for a create request for `objectId`. */
  function CreateResponseFor(objectId: seq<byte>): P.CreateResponse {
    P.CreateResponse(objectId, 0, Some(EMPTY_OBJECT_SPEC), 0, 0, 0, 0, Some(P.CudaHandle(ZERO_IPC_HANDLE)))
  }

  /** The answer to one decoded request: create and connect requests are answered, the rest are not. */
  function Respond(m: M.Message): Option<M.Message> {
    match m
    case CreateRequest(cr) => Some(M.CreateResponse(CreateResponseFor(cr.objectId)))
    case ConnectRequest(_) => Some(M.ConnectResponse(P.ConnectResponse(MEMORY_CAPACITY)))
    case _ => None
  }

  /** One item of the framed stream: a decoded request or a decoding error. */
  type Item = Result<M.Message, IoError>

  function Answer(item: Item): Option<M.Message> {
    if item.Ok? then Respond(item.value) else None
  }

  /** The responses owed for `items`, in the order of their requests. */
  function Responses(items: seq<Item>): seq<M.Message> {
    if items == [] then []
    else
      var last := Answer(items[|items| - 1]);
      Responses(items[..|items| - 1]) + (if last.Some? then [last.value] else [])
  }

  /**
   * `handle_client` over the items the framed stream yields. `sendError(k)` is what
   * sending the k-th response does: None when it goes out, an error otherwise, which
   * ends the loop and is returned.
   */
  method HandleClient(items: seq<Item>, sendError: nat -> Option<IoError>)
    returns (sent: seq<M.Message>, r: Result<(), IoError>)
    ensures forall k :: 0 <= k < |sent| ==> sendError(k).None?
    ensures r.Ok? <==> forall k :: 0 <= k < |Responses(items)| ==> sendError(k).None?
    ensures r.Ok? ==> sent == Responses(items)
    ensures r.Err? ==>
      |sent| < |Responses(items)| && sent == Responses(items)[..|sent|] && sendError(|sent|) == Some(r.error)
  {
    sent := [];
    var i := 0;
    while i < |items|
      invariant 0 <= i <= |items|
      invariant sent == Responses(items[..i])
      invariant forall k :: 0 <= k < |sent| ==> sendError(k).None?
    {
      assert items[..i + 1][..i] == items[..i];
      var response := Answer(items[i]);
      if response.Some? {
        var failure := sendError(|sent|);
        if failure.Some? {
          ResponsesPrefix(items, i + 1);
          assert Responses(items[..i + 1]) == sent + [response.value];
          assert |sent| < |Responses(items)| && sendError(|sent|).Some?;
          return sent, Err(failure.value);
        }
        sent := sent + [response.value];
      }
      i := i + 1;
    }
    assert items[..i] == items;
    return sent, Ok(());
  }

  // ---- Properties of the dispatch ----

  /** Responses are owed item by item: the responses to two runs of items are concatenated. */
  lemma {:induction false} ResponsesAppend(xs: seq<Item>, ys: seq<Item>)
    ensures Responses(xs + ys) == Responses(xs) + Responses(ys)
  {
    if ys != [] {
      var init := ys[..|ys| - 1];
      assert (xs + ys)[..|xs + ys| - 1] == xs + init;
      assert (xs + ys)[|xs + ys| - 1] == ys[|ys| - 1];
      ResponsesAppend(xs, init);
    } else {
      assert xs + ys == xs;
    }
  }

  /** The responses owed for a prefix of the items are a prefix of those owed for all of them. */
  lemma ResponsesPrefix(items: seq<Item>, n: nat)
    requires n <= |items|
    ensures |Responses(items[..n])| <= |Responses(items)|
    ensures Responses(items[..n]) == Responses(items)[..|Responses(items[..n])|]
  {
    ResponsesAppend(items[..n], items[n..]);
    assert items[..n] + items[n..] == items;
  }

  /**
   * A create request is answered by one create response that echoes its object id,
   * with all counters zero, an all-zero object spec and four four-byte zero handles.
   */
  lemma CreateIsAnswered(cr: P.CreateRequest)
    ensures Responses([Ok(M.CreateRequest(cr))]) == [M.CreateResponse(CreateResponseFor(cr.objectId))]
    ensures var resp := CreateResponseFor(cr.objectId);
      && resp.objectId == cr.objectId
      && resp.retryWithRequestId == resp.error == resp.storeFd == resp.uniqueFdId == resp.mmapSize == 0
      && resp.plasmaObject.Some? && resp.plasmaObject.value == EMPTY_OBJECT_SPEC
      && resp.ipcHandle.Some? && |resp.ipcHandle.value.handle| == 4
      && (forall h :: h in resp.ipcHandle.value.handle ==> h == [0, 0, 0, 0])
  {
    var items: seq<Item> := [Ok(M.CreateRequest(cr))];
    assert items[..0] == [];
  }

  /** A connect request is answered by one connect response announcing a capacity of 200. */
  lemma ConnectIsAnswered(c: P.ConnectRequest)
    ensures Responses([Ok(M.ConnectRequest(c))]) == [M.ConnectResponse(P.ConnectResponse(200))]
  {
    var items: seq<Item> := [Ok(M.ConnectRequest(c))];
    assert items[..0] == [];
  }

  /** Every other message, and every decoding error, is passed over without a response. */
  lemma OthersAreSkipped(item: Item)
    requires !(item.Ok? && (item.value.CreateRequest? || item.value.ConnectRequest?))
    ensures Responses([item]) == []
  {
    assert [item][..0] == [];
  }

  /**
   * Only create and connect responses are sent, one per create or connect request
   * and never more responses than items.
   */
  lemma {:induction false} ResponsesKinds(items: seq<Item>)
    ensures |Responses(items)| <= |items|
    ensures forall k :: 0 <= k < |Responses(items)| ==>
      Responses(items)[k].CreateResponse? || Responses(items)[k].ConnectResponse?
  {
    if items != [] {
      ResponsesKinds(items[..|items| - 1]);
    }
  }

  /** Skipped items change nothing: removing one leaves the responses as they were. */
  lemma SkippedItemChangesNothing(xs: seq<Item>, item: Item, ys: seq<Item>)
    requires Answer(item).None?
    ensures Responses(xs + [item] + ys) == Responses(xs + ys)
  {
    ResponsesAppend(xs + [item], ys);
    ResponsesAppend(xs, [item]);
    ResponsesAppend(xs, ys);
    assert [item][..0] == [];
  }

  /** The store's answers to the client's messages read back at the client as sent. */
  lemma ResponsesAreTagged(items: seq<Item>)
    ensures forall k :: 0 <= k < |Responses(items)| ==> M.MessageType(Responses(items)[k]).Some?
  {
    ResponsesKinds(items);
  }
}
