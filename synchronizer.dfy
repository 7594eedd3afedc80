/**
 * The upload counter of the Android client (Synchronizer.java): every element
 * of a JSON array is posted to the server in index order; a 201 reply counts
 * as synced, a 302 (already stored) as not synced, and any other reply, a
 * post the client itself fails to complete, or an element that is not a JSON
 * object, aborts the upload.
 *
 * The server is a client object whose k-th post, counted from its creation,
 * gets the reply `replies(k)`: a status, or the client's own SyncException;
 * the requests it has been asked to send are recorded.
 */
module Sync {
  import opened Wrappers

  /** An element of the uploaded `JSONArray`: a JSON object (its text) or anything else. */
  datatype Element = JsonObject(text: string) | NotAnObject

  /** `SyncException`, with the reason it was thrown: a reply, a non-object element, or the client's own failure. */
  datatype SyncError = UnexpectedResponse(status: int) | JsonError | ClientFailure

  /** What a `postJSON` call comes back with: the response's status, or a SyncException of the client's. */
  datatype Reply = Status(code: int) | Failed

  /** A `postJSON(uri, body)` call. */
  datatype Request = Request(uri: string, body: string)

  const CREATED: int := 201
  const FOUND: int := 302
  const MISSING_LATEST: int := -1
  /** `getCreateSampleUri()`. */
  const CREATE_SAMPLE_URI: string := "/Sample/"

  /** `syncObject`'s reading of a status: created, already present, or an error. */
  function Classify(status: int): (r: Result<bool, SyncError>)
    ensures r == Ok(true) <==> status == CREATED
    ensures r == Ok(false) <==> status == FOUND
    ensures r.Err? ==> r.error == UnexpectedResponse(status)
  {
    if status == CREATED then Ok(true)
    else if status == FOUND then Ok(false)
    else Err(UnexpectedResponse(status))
  }

  /** `syncObject`'s outcome for a reply: the client's exception passes through, a status is classified. */
  function Answer(reply: Reply): (r: Result<bool, SyncError>)
    ensures r == Ok(true) <==> reply == Status(CREATED)
    ensures r == Ok(false) <==> reply == Status(FOUND)
    ensures r.Err? ==> r.error == if reply.Failed? then ClientFailure else UnexpectedResponse(reply.code)
  {
    match reply
    case Failed => Err(ClientFailure)
    case Status(code) => Classify(code)
  }

  /** What an upload produces: the count or the error, and the requests sent. */
  datatype Outcome = Outcome(result: Result<int, SyncError>, posts: seq<Request>)

  /** One element handled before the outcome of the rest: its post comes first and its count is added. */
  function Prepend(created: bool, body: string, rest: Outcome): Outcome
  {
    Outcome(
      match rest.result
      case Ok(n) => Ok(n + (if created then 1 else 0))
      case Err(e) => Err(e),
      [Request(CREATE_SAMPLE_URI, body)] + rest.posts)
  }

  /**
   * The upload of `elems[i..]` when the server has already answered `k0 + i`
   * posts: an element that is not an object stops it before posting, a
   * post answered neither 201 nor 302, or failed by the client, stops it
   * after posting. Only posted elements are counted, every element is
   * posted at most once, and every post goes to `/Sample/`.
   */
  function Upload(elems: seq<Element>, replies: nat -> Reply, k0: nat, i: nat): (o: Outcome)
    ensures o.result.Ok? ==> 0 <= o.result.value <= |o.posts|
    ensures i <= |elems| ==> |o.posts| <= |elems| - i
    decreases |elems| - i
  {
    if i >= |elems| then Outcome(Ok(0), [])
    else match elems[i]
      case NotAnObject => Outcome(Err(JsonError), [])
      case JsonObject(body) =>
        match Answer(replies(k0 + i))
        case Err(e) => Outcome(Err(e), [Request(CREATE_SAMPLE_URI, body)])
        case Ok(created) => Prepend(created, body, Upload(elems, replies, k0, i + 1))
  }

  /** Every request the upload sends goes to the sample-creation URI. */
  lemma {:induction false} UploadPostsSamples(elems: seq<Element>, replies: nat -> Reply, k0: nat, i: nat)
    ensures forall j :: 0 <= j < |Upload(elems, replies, k0, i).posts| ==> Upload(elems, replies, k0, i).posts[j].uri == CREATE_SAMPLE_URI
    decreases |elems| - i
  {
    if i < |elems| && elems[i].JsonObject? && Answer(replies(k0 + i)).Ok? {
      UploadPostsSamples(elems, replies, k0, i + 1);
      var rest := Upload(elems, replies, k0, i + 1);
      var o := Prepend(Answer(replies(k0 + i)).value, elems[i].text, rest);
      assert Upload(elems, replies, k0, i) == o;
      assert forall j :: 1 <= j < |o.posts| ==> o.posts[j] == rest.posts[j - 1];
    }
  }

  /** The element at j is an object the server accepted, as new (201) or as a duplicate (302). */
  predicate Accepted(elems: seq<Element>, replies: nat -> Reply, k0: nat, j: nat)
    requires j < |elems|
  {
    elems[j].JsonObject? && (replies(k0 + j) == Status(CREATED) || replies(k0 + j) == Status(FOUND))
  }

  predicate AllAccepted(elems: seq<Element>, replies: nat -> Reply, k0: nat, from: nat, to: nat)
    requires from <= to <= |elems|
  {
    forall j :: from <= j < to ==> Accepted(elems, replies, k0, j)
  }

  /** How many of the posts from `from` to `to` were answered 201. */
  function Created(replies: nat -> Reply, k0: nat, from: nat, to: nat): nat
    decreases to - from
  {
    if from >= to then 0
    else (if replies(k0 + from) == Status(CREATED) then 1 else 0) + Created(replies, k0, from + 1, to)
  }

  /** The request for each element. */
  predicate PostsAre(posts: seq<Request>, elems: seq<Element>, from: nat, to: nat)
    requires from <= to <= |elems|
  {
    |posts| == to - from
    && forall j :: from <= j < to ==> elems[j].JsonObject? && posts[j - from] == Request(CREATE_SAMPLE_URI, elems[j].text)
  }

  /**
   * When every element from i on is accepted, the upload posts each of them
   * exactly once, in index order, and counts the 201 replies; 302 replies
   * count nothing and raise nothing.
   */
  lemma {:induction false} AcceptedUpload(elems: seq<Element>, replies: nat -> Reply, k0: nat, i: nat)
    requires i <= |elems| && AllAccepted(elems, replies, k0, i, |elems|)
    ensures Upload(elems, replies, k0, i).result == Ok(Created(replies, k0, i, |elems|))
    ensures PostsAre(Upload(elems, replies, k0, i).posts, elems, i, |elems|)
    decreases |elems| - i
  {
    if i < |elems| {
      assert Accepted(elems, replies, k0, i);
      AcceptedUpload(elems, replies, k0, i + 1);
      var rest := Upload(elems, replies, k0, i + 1);
      assert Upload(elems, replies, k0, i) == Prepend(replies(k0 + i) == Status(CREATED), elems[i].text, rest);
    }
  }

  /**
   * When the element at f is the first one from i on that is not accepted,
   * the upload fails with its error, and exactly the elements from i up to
   * f (f itself when it is an object) have been posted; nothing after f is.
   */
  lemma {:induction false} RejectedUpload(elems: seq<Element>, replies: nat -> Reply, k0: nat, i: nat, f: nat)
    requires i <= f < |elems| && AllAccepted(elems, replies, k0, i, f) && !Accepted(elems, replies, k0, f)
    ensures var o := Upload(elems, replies, k0, i);
      o.result == Err(if elems[f].NotAnObject? then JsonError else Answer(replies(k0 + f)).error)
      && PostsAre(o.posts, elems, i, if elems[f].JsonObject? then f + 1 else f)
    decreases f - i
  {
    if i < f {
      assert Accepted(elems, replies, k0, i);
      RejectedUpload(elems, replies, k0, i + 1, f);
    }
  }

  /** An empty array uploads nothing and counts 0. */
  lemma EmptyUpload(replies: nat -> Reply, k0: nat)
    ensures Upload([], replies, k0, 0) == Outcome(Ok(0), [])
  {
  }

  /** `testSynchronizerMock`: two objects, both answered 201, count 2. */
  lemma TwoCreated(a: string, b: string, k0: nat)
    ensures var o := Upload([JsonObject(a), JsonObject(b)], k => Status(CREATED), k0, 0);
      o.result == Ok(2) && o.posts == [Request(CREATE_SAMPLE_URI, a), Request(CREATE_SAMPLE_URI, b)]
  {
    var elems := [JsonObject(a), JsonObject(b)];
    assert Upload(elems, k => Status(CREATED), k0, 2) == Outcome(Ok(0), []);
  }

  /** The outcome of a whole upload in terms of the requests already sent, the count so far and the outcome of the rest. */
  function After(sent: seq<Request>, synced: int, rest: Outcome): Outcome
  {
    Outcome(
      match rest.result
      case Ok(n) => Ok(synced + n)
      case Err(e) => Err(e),
      sent + rest.posts)
  }

  /** An element that is not an object stops the upload before anything is posted. */
  lemma UploadStopsAtNonObject(elems: seq<Element>, replies: nat -> Reply, k0: nat, i: nat)
    requires i < |elems| && elems[i].NotAnObject?
    ensures Upload(elems, replies, k0, i) == Outcome(Err(JsonError), [])
  {
  }

  /** A reply that is neither 201 nor 302, or a failure of the client, stops the upload right after its post. */
  lemma UploadStopsAtReply(elems: seq<Element>, replies: nat -> Reply, k0: nat, i: nat)
    requires i < |elems| && elems[i].JsonObject? && Answer(replies(k0 + i)).Err?
    ensures Upload(elems, replies, k0, i) == Outcome(Err(Answer(replies(k0 + i)).error), [Request(CREATE_SAMPLE_URI, elems[i].text)])
  {
  }

  /** An accepted element is posted, counted if new, and the upload goes on with the next one. */
  lemma UploadGoesOn(elems: seq<Element>, replies: nat -> Reply, k0: nat, i: nat, sent: seq<Request>, synced: int)
    requires i < |elems| && elems[i].JsonObject? && Answer(replies(k0 + i)).Ok?
    ensures var created := Answer(replies(k0 + i)).value;
      After(sent, synced, Upload(elems, replies, k0, i))
      == After(sent + [Request(CREATE_SAMPLE_URI, elems[i].text)], synced + (if created then 1 else 0), Upload(elems, replies, k0, i + 1))
  {
    var rest := Upload(elems, replies, k0, i + 1);
    assert Upload(elems, replies, k0, i) == Prepend(Answer(replies(k0 + i)).value, elems[i].text, rest);
  }

  /** The client to the server: the reply to each post and the requests it has been asked to send. */
  class Client {
    const replies: nat -> Reply
    var requests: seq<Request>

    constructor(replies: nat -> Reply)
      ensures this.replies == replies && requests == []
    {
      this.replies := replies;
      requests := [];
    }

    /**
     * `postJSON(uri, body)`: the k-th request gets `replies(k)`, either a
     * response status or the SyncException `postJSON` may throw; the request
     * is recorded either way.
     */
    method PostJSON(uri: string, body: string) returns (r: Result<int, SyncError>)
      modifies this
      ensures requests == old(requests) + [Request(uri, body)]
      ensures r == match replies(|old(requests)|) case Status(code) => Ok(code) case Failed => Err(ClientFailure)
    {
      var reply := replies(|requests|);
      requests := requests + [Request(uri, body)];
      match reply
      case Status(code) => r := Ok(code);
      case Failed => r := Err(ClientFailure);
    }
  }

  /** `Synchronizer`: uploads through one client. */
  class Synchronizer {
    const client: Client

    constructor(client: Client)
      ensures this.client == client
    {
      this.client := client;
    }

    /** `syncObject(object)`: posts the object and reads the status; the client's exception escapes. */
    method SyncObject(body: string) returns (r: Result<bool, SyncError>)
      modifies client
      ensures client.requests == old(client.requests) + [Request(CREATE_SAMPLE_URI, body)]
      ensures r == Answer(client.replies(|old(client.requests)|))
    {
      var status := client.PostJSON(CREATE_SAMPLE_URI, body);
      if status.Err? {
        return Err(status.error);
      }
      r := Classify(status.value);
    }

    /** `sync(array)`: the upload of the whole array, by the server's next answers. */
    method Sync(elems: seq<Element>) returns (r: Result<int, SyncError>)
      modifies client
      ensures var o := Upload(elems, client.replies, |old(client.requests)|, 0);
        r == o.result && client.requests == old(client.requests) + o.posts
    {
      var k0 := |client.requests|;
      var synced := 0;
      var sent: seq<Request> := [];
      for i := 0 to |elems|
        invariant client.requests == old(client.requests) + sent
        invariant |client.requests| == k0 + i
        invariant Upload(elems, client.replies, k0, 0) == After(sent, synced, Upload(elems, client.replies, k0, i))
      {
        match elems[i]
        case NotAnObject =>
          UploadStopsAtNonObject(elems, client.replies, k0, i);
          return Err(JsonError);
        case JsonObject(body) =>
          var created := SyncObject(body);
          if created.Err? {
            UploadStopsAtReply(elems, client.replies, k0, i);
            sent := sent + [Request(CREATE_SAMPLE_URI, body)];
            return Err(created.error);
          }
          UploadGoesOn(elems, client.replies, k0, i, sent, synced);
          sent := sent + [Request(CREATE_SAMPLE_URI, body)];
          if created.value {
            synced := synced + 1;
          }
      }
      assert Upload(elems, client.replies, k0, |elems|) == Outcome(Ok(0), []);
      r := Ok(synced);
    }

    /** `getLatest()`: the latest uploaded timestamp is never known. */
    function GetLatest(): (r: int)
      ensures r == MISSING_LATEST
    {
      MISSING_LATEST
    }
  }
}
