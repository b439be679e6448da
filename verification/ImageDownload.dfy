/** One thumbnail's download: redirect hops walked by hand, each against the allowlist, and a body that
    stops at a byte ceiling; as one loop, and as the network events other downloads interleave with. */
module ImageDownload {
  import opened Wrappers

  const MAX_REDIRECTS: nat := 5

  type Bytes = seq<bv8>

  /** How a body ends after its chunks: as it should, with an HTTP error, or with another exception. */
  datatype BodyEnd = Complete | HttpError | OtherError

  /** What a request is answered with, or the exception it raises. */
  datatype Response =
    | Redirect(location: Option<string>)
    | Status(code: int)
    | Body(chunks: seq<Bytes>, end: BodyEnd)
    | HttpFailure
    | OtherFailure

  datatype Thumbnail = Thumbnail(data: Bytes)

  /** What decoding and downscaling makes of a body. */
  datatype Encoded = Image(thumbnail: Thumbnail) | Unusable | Crash

  /** The world one download sees: the allowlist, URL joining, which may raise, the answer to the n-th
      request, and what becomes of a body. */
  datatype Web = Web(
    allowed: string -> bool, join: (string, string) -> Option<string>, respond: (nat, string) -> Response,
    encode: Bytes -> Encoded)

  function Concat(chunks: seq<Bytes>): Bytes {
    if chunks == [] then [] else Concat(chunks[..|chunks| - 1]) + chunks[|chunks| - 1]
  }

  /** Where the n-th answer sends the download, if it is a redirect with a location. */
  function NextHop(web: Web, n: nat, target: string): Option<string> {
    match web.respond(n, target)
    case Redirect(Some(location)) => if location == "" then None else web.join(target, location)
    case _ => None
  }

  /** The redirects from `url` lead to these targets, every one on the allowlist. */
  ghost predicate IsRedirectChain(web: Web, url: string, targets: seq<string>) {
    && targets != [] && targets[0] == url
    && (forall n :: 0 <= n < |targets| ==> web.allowed(targets[n]))
    && (forall n: nat :: n < |targets| - 1 ==> NextHop(web, n, targets[n]) == Some(targets[n + 1]))
  }

  /** What a download can come to: the bytes of an image, nothing, or an exception that is no HTTP error. */
  datatype Delivery = Delivered(body: Bytes) | Nothing | Raised

  /** What a body with these chunks and this end comes to. */
  function BodyDelivery(chunks: seq<Bytes>, end: BodyEnd, maxBytes: nat): Delivery {
    if |Concat(chunks)| > maxBytes then Nothing
    else match end
         case Complete => if Concat(chunks) == [] then Nothing else Delivered(Concat(chunks))
         case HttpError => Nothing
         case OtherError => Raised
  }

  /** What the last answer of a chain comes to. */
  function LastDelivery(web: Web, targets: seq<string>, maxBytes: nat): Delivery
    requires targets != []
  {
    var target := targets[|targets| - 1];
    match web.respond(|targets| - 1, target)
    case Redirect(None) => Nothing
    case Redirect(Some(location)) => if location != "" && web.join(target, location).None? then Raised else Nothing
    case Status(_) => Nothing
    case Body(chunks, end) => BodyDelivery(chunks, end, maxBytes)
    case HttpFailure => Nothing
    case OtherFailure => Raised
  }

  /** The chunks up to the ceiling: None once it is passed. `peak` is the most bytes that were in memory, the
      chunk that breaks the ceiling included: the first prefix past it, or the whole body. */
  method Stream(chunks: seq<Bytes>, maxBytes: nat) returns (body: Option<Bytes>, ghost peak: nat)
    ensures body == if |Concat(chunks)| <= maxBytes then Some(Concat(chunks)) else None
    ensures body.Some? ==> peak == |Concat(chunks)|
    ensures body.None? ==>
              exists n :: 0 <= n < |chunks| && |Concat(chunks[..n])| <= maxBytes < |Concat(chunks[..n + 1])| == peak
  {
    var buffer: Bytes := [];
    var received := 0;
    peak := 0;
    for i := 0 to |chunks|
      invariant buffer == Concat(chunks[..i]) && received == |buffer| == peak <= maxBytes
    {
      assert chunks[..i + 1][..i] == chunks[..i];
      received := received + |chunks[i]|;
      peak := received;
      if received > maxBytes {
        ConcatGrows(chunks, i + 1);
        return None, peak;
      }
      buffer := buffer + chunks[i];
    }
    assert chunks[..|chunks|] == chunks;
    return Some(buffer), peak;
  }

  lemma {:induction false} ConcatGrows(chunks: seq<Bytes>, n: nat)
    requires n <= |chunks|
    ensures |Concat(chunks[..n])| <= |Concat(chunks)|
    decreases |chunks| - n
  {
    if n == |chunks| {
      assert chunks[..n] == chunks;
    } else {
      assert chunks[..n + 1][..n] == chunks[..n];
      ConcatGrows(chunks, n + 1);
    }
  }

  /** The bytes come in the order of the chunks. */
  lemma {:induction false} ConcatInOrder(chunks: seq<Bytes>, n: nat)
    requires n < |chunks|
    ensures Concat(chunks[..n]) + chunks[n] <= Concat(chunks)
    ensures |chunks| == n + 1 ==> Concat(chunks) == Concat(chunks[..n]) + chunks[n]
    decreases |chunks|
  {
    var last := |chunks| - 1;
    if n < last {
      ConcatInOrder(chunks[..last], n);
      assert chunks[..last][..n] == chunks[..n];
    }
  }

  ghost predicate IsWalk(web: Web, url: string, targets: seq<string>) {
    IsRedirectChain(web, url, targets) && |targets| <= 6
  }

  /** What a URL comes to, over the chains of at most five allowed redirects from it: the bytes or
      the exception that one of them ends in, or nothing if all end in nothing. */
  ghost predicate Delivers(web: Web, url: string, maxBytes: nat, delivery: Delivery) {
    if delivery.Nothing? then
      forall targets :: IsWalk(web, url, targets) ==> LastDelivery(web, targets, maxBytes).Nothing?
    else
      exists targets :: IsWalk(web, url, targets) && LastDelivery(web, targets, maxBytes) == delivery
  }

  ghost predicate LeadsTo(web: Web, n: nat, target: string, next: string) {
    exists location ::
      && location != "" && web.respond(n, target) == Redirect(Some(location))
      && web.join(target, location) == Some(next)
  }

  /** Requests for these targets, the first of which is the URL: all allowed, each but the last answered with
      a redirect to the next, the last with this response. */
  ghost predicate EndsIn(web: Web, url: string, targets: seq<string>, response: Response) {
    && 1 <= |targets| <= 6 && targets[0] == url
    && (forall target <- targets :: web.allowed(target))
    && (forall n: nat :: n < |targets| - 1 ==> LeadsTo(web, n, targets[n], targets[n + 1]))
    && web.respond(|targets| - 1, targets[|targets| - 1]) == response
  }

  lemma WalkEndsIn(web: Web, url: string, targets: seq<string>)
    ensures IsWalk(web, url, targets)
            <==> targets != []
                 && EndsIn(web, url, targets, web.respond(|targets| - 1, targets[|targets| - 1]))
  {
    forall n: nat | n < |targets| - 1
      ensures NextHop(web, n, targets[n]) == Some(targets[n + 1]) <==> LeadsTo(web, n, targets[n], targets[n + 1])
    {
      if NextHop(web, n, targets[n]) == Some(targets[n + 1]) {
        assert LeadsTo(web, n, targets[n], targets[n + 1]) by {
          var location := web.respond(n, targets[n]).location.value;
        }
      }
    }
  }

  /** The body is complete, not empty and within the ceiling. */
  ghost predicate EndsInBody(web: Web, url: string, maxBytes: nat, targets: seq<string>, body: Bytes) {
    exists chunks ::
      EndsIn(web, url, targets, Body(chunks, Complete)) && body == Concat(chunks) && 1 <= |body| <= maxBytes
  }

  /** The last request, URL join or body raises something that is no HTTP error. */
  ghost predicate EndsInError(web: Web, url: string, maxBytes: nat, targets: seq<string>) {
    || EndsIn(web, url, targets, OtherFailure)
    || (exists chunks :: EndsIn(web, url, targets, Body(chunks, OtherError)) && |Concat(chunks)| <= maxBytes)
    || (exists location :: && EndsIn(web, url, targets, Redirect(Some(location)))
                           && location != "" && web.join(targets[|targets| - 1], location).None?)
  }

  lemma LastDeliveryIs(web: Web, url: string, maxBytes: nat, targets: seq<string>, body: Bytes)
    requires IsWalk(web, url, targets)
    ensures LastDelivery(web, targets, maxBytes) == Delivered(body) <==> EndsInBody(web, url, maxBytes, targets, body)
    ensures LastDelivery(web, targets, maxBytes) == Raised <==> EndsInError(web, url, maxBytes, targets)
  {
    WalkEndsIn(web, url, targets);
    hide IsRedirectChain;
    var last := web.respond(|targets| - 1, targets[|targets| - 1]);
    assert forall response :: EndsIn(web, url, targets, response) <==> response == last;
  }

  lemma EndIsWalk(web: Web, url: string, maxBytes: nat, targets: seq<string>, body: Bytes)
    ensures IsWalk(web, url, targets) ==> targets != []
    ensures EndsInBody(web, url, maxBytes, targets, body)
            <==> IsWalk(web, url, targets) && LastDelivery(web, targets, maxBytes) == Delivered(body)
    ensures EndsInError(web, url, maxBytes, targets)
            <==> IsWalk(web, url, targets) && LastDelivery(web, targets, maxBytes) == Raised
  {
    WalkEndsIn(web, url, targets);
    if targets != [] && IsWalk(web, url, targets) { LastDeliveryIs(web, url, maxBytes, targets, body); }
    hide LastDelivery;
  }

  /** A URL comes to the bytes of an image exactly if at most five redirects, all to allowed origins, lead to
      a complete answer of 1 to maxBytes bytes, and to an exception exactly if they lead to one that is no HTTP
      error. */
  lemma DeliversExactlyIf(web: Web, url: string, maxBytes: nat, body: Bytes)
    ensures Delivers(web, url, maxBytes, Delivered(body))
            <==> exists targets :: EndsInBody(web, url, maxBytes, targets, body)
    ensures Delivers(web, url, maxBytes, Raised)
            <==> exists targets :: EndsInError(web, url, maxBytes, targets)
  {
    hide IsRedirectChain, LastDelivery, EndsIn, EndsInBody, EndsInError;
    forall targets {
      EndIsWalk(web, url, maxBytes, targets, body);
    }
    if Delivers(web, url, maxBytes, Delivered(body)) {
      var targets :| IsWalk(web, url, targets) && LastDelivery(web, targets, maxBytes) == Delivered(body);
      assert EndsInBody(web, url, maxBytes, targets, body);
    }
    if Delivers(web, url, maxBytes, Raised) {
      var targets :| IsWalk(web, url, targets) && LastDelivery(web, targets, maxBytes) == Raised;
      assert EndsInError(web, url, maxBytes, targets);
    }
  }

  /** A URL comes to one thing only. */
  lemma DeliversOneThing(web: Web, url: string, maxBytes: nat, a: Delivery, b: Delivery)
    requires Delivers(web, url, maxBytes, a) && Delivers(web, url, maxBytes, b)
    ensures a == b
  {
    if !a.Nothing? && !b.Nothing? {
      var p :| IsWalk(web, url, p) && LastDelivery(web, p, maxBytes) == a;
      var q :| IsWalk(web, url, q) && LastDelivery(web, q, maxBytes) == b;
      Compare(web, url, p, q);
      Compare(web, url, q, p);
    }
  }

  /** What one image's requests come to. Nothing outside the allowlist is requested, and no more than six
      requests are made. */
  method FetchBody(web: Web, url: string, maxBytes: nat)
    returns (delivery: Delivery, ghost requested: seq<string>)
    ensures |requested| <= 6 && forall target <- requested :: web.allowed(target)
    ensures requested != [] ==> IsRedirectChain(web, url, requested)
    ensures !delivery.Nothing? ==> requested != [] && LastDelivery(web, requested, maxBytes) == delivery
    ensures Delivers(web, url, maxBytes, delivery)
  {
    hide Delivers, IsRedirectChain;
    var target := url;
    requested := [];
    for hop := 0 to MAX_REDIRECTS + 1
      invariant |requested| == hop && forall t <- requested :: web.allowed(t)
      invariant Reached(web, url, requested, target)
    {
      if !web.allowed(target) {
        Refused(web, url, requested, target, maxBytes);
        return Nothing, requested;
      }
      HopTaken(web, url, requested, target);
      requested := requested + [target];
      match web.respond(hop, target)
      case Redirect(location) =>
        if location.None? || location.value == "" {
          ChainEnds(web, url, requested, maxBytes);
          return Nothing, requested;
        }
        var next := web.join(target, location.value);
        if next.None? {
          ChainEnds(web, url, requested, maxBytes);
          return Raised, requested;
        }
        target := next.value;
      case Status(_) =>
        ChainEnds(web, url, requested, maxBytes);
        return Nothing, requested;
      case HttpFailure =>
        ChainEnds(web, url, requested, maxBytes);
        return Nothing, requested;
      case OtherFailure =>
        ChainEnds(web, url, requested, maxBytes);
        return Raised, requested;
      case Body(chunks, end) =>
        ChainEnds(web, url, requested, maxBytes);
        var content, peak := Stream(chunks, maxBytes);
        if content.None? || end.HttpError? {
          return Nothing, requested;
        }
        if end.OtherError? {
          return Raised, requested;
        }
        return if content.value == [] then Nothing else Delivered(content.value), requested;
    }
    ChainEnds(web, url, requested, maxBytes);
    delivery := Nothing;
  }

  /** `target` is what comes after the requests made so far. */
  ghost predicate Reached(web: Web, url: string, requested: seq<string>, target: string) {
    if requested == [] then target == url
    else
      && IsRedirectChain(web, url, requested)
      && NextHop(web, |requested| - 1, requested[|requested| - 1]) == Some(target)
  }

  lemma HopTaken(web: Web, url: string, requested: seq<string>, target: string)
    requires Reached(web, url, requested, target) && web.allowed(target)
    ensures IsRedirectChain(web, url, requested + [target])
  {
  }

  lemma {:induction false} ChainIsUnique(web: Web, url: string, a: seq<string>, b: seq<string>, n: nat)
    requires IsRedirectChain(web, url, a) && IsRedirectChain(web, url, b) && n < |a| && n < |b|
    ensures a[n] == b[n]
  {
    if n != 0 {
      ChainIsUnique(web, url, a, b, n - 1);
      assert NextHop(web, n - 1, a[n - 1]) == Some(a[n - 1 + 1]) && NextHop(web, n - 1, b[n - 1]) == Some(b[n - 1 + 1]);
    }
  }

  /** A second chain from the same URL is shorter, and redirects at its end; or equally long, and ends
      alike; or it runs on where this one ends. */
  lemma Compare(web: Web, url: string, requested: seq<string>, targets: seq<string>)
    requires IsRedirectChain(web, url, requested) && IsRedirectChain(web, url, targets)
    ensures |targets| < |requested| ==> forall maxBytes :: LastDelivery(web, targets, maxBytes).Nothing?
    ensures |targets| == |requested| ==> targets[|targets| - 1] == requested[|requested| - 1]
    ensures |requested| < |targets| ==>
              NextHop(web, |requested| - 1, requested[|requested| - 1]) == Some(targets[|requested|])
  {
    var n := (if |targets| < |requested| then |targets| else |requested|) - 1;
    ChainIsUnique(web, url, requested, targets, n);
    if |targets| < |requested| {
      assert NextHop(web, n, requested[n]) == Some(requested[n + 1]);
    } else if |requested| < |targets| {
      assert NextHop(web, n, targets[n]) == Some(targets[n + 1]);
    }
  }

  /** The walk is over: the last answer leads nowhere or the hops are used up. */
  lemma ChainEnds(web: Web, url: string, requested: seq<string>, maxBytes: nat)
    requires IsWalk(web, url, requested)
    requires NextHop(web, |requested| - 1, requested[|requested| - 1]).None? || |requested| == MAX_REDIRECTS + 1
    ensures Delivers(web, url, maxBytes, LastDelivery(web, requested, maxBytes))
  {
    if LastDelivery(web, requested, maxBytes).Nothing? {
      forall targets | IsWalk(web, url, targets) ensures LastDelivery(web, targets, maxBytes).Nothing? {
        Compare(web, url, requested, targets);
      }
    }
  }

  lemma Refused(web: Web, url: string, requested: seq<string>, target: string, maxBytes: nat)
    requires Reached(web, url, requested, target) && !web.allowed(target)
    ensures Delivers(web, url, maxBytes, Nothing)
  {
    forall targets | IsWalk(web, url, targets) ensures LastDelivery(web, targets, maxBytes).Nothing? {
      if requested != [] {
        Compare(web, url, requested, targets);
        if |targets| == |requested| {
          assert NextHop(web, |targets| - 1, targets[|targets| - 1]).Some?;
        }
      }
    }
  }

  // --- the same download, one network event at a time ---

  /** Before a request, between two chunks of a body, or with the body in the decoding pool. */
  datatype Download =
    | Requesting(targets: seq<string>, next: string)
    | Streaming(targets: seq<string>, chunks: seq<Bytes>, end: BodyEnd, n: nat, body: Bytes)
    | Encoding(body: Bytes)

  /** How one image's task ends: an encoded image or None, the deadline, a fault, or a cancellation
      that is not the batch's to swallow. */
  datatype Result = Returned(thumbnail: Option<Thumbnail>) | DeadlineExceeded | Fault | Cancelled

  datatype Progress = Going(download: Download) | Done(result: Result)

  const GIVEN_UP := Done(Returned(None))

  /** Body bytes received and not given up, each counted once. */
  function Received(download: Download): nat {
    match download
    case Requesting(_, _) => 0
    case Streaming(_, _, _, _, body) => |body|
    case Encoding(body) => |body|
  }

  /** Body bytes in memory between two events: while the decoding pool has the joined body, the list of its
      chunks is still there. */
  function Resident(download: Download): nat {
    match download
    case Requesting(_, _) => 0
    case Streaming(_, _, _, _, body) => |body|
    case Encoding(body) => |body| + |body|
  }

  /** Bytes that the next event brings: the chunk that is compared with the ceiling. */
  function Arriving(download: Download): nat {
    match download
    case Streaming(_, chunks, _, n, _) => if n < |chunks| then |chunks[n]| else 0
    case _ => 0
  }

  function ResultOf(encoded: Encoded): Result {
    match encoded
    case Image(thumbnail) => Returned(Some(thumbnail))
    case Unusable => Returned(None)
    case Crash => Fault
  }

  function DeliveredResult(web: Web, delivery: Delivery): Result {
    match delivery
    case Delivered(body) => ResultOf(web.encode(body))
    case Nothing => Returned(None)
    case Raised => Fault
  }

  /** One event: a request is answered, a chunk or the end of the body arrives, or the pool is done. */
  function Advance(web: Web, maxBytes: nat, download: Download): Progress {
    match download
    case Requesting(targets, next) =>
      if !web.allowed(next) then GIVEN_UP else
        (match web.respond(|targets|, next)
         case Redirect(location) =>
           if location.None? || location.value == "" then GIVEN_UP
           else if web.join(next, location.value).None? then Done(Fault)
           else if |targets| == MAX_REDIRECTS then GIVEN_UP
           else Going(Requesting(targets + [next], web.join(next, location.value).value))
         case Status(_) => GIVEN_UP
         case HttpFailure => GIVEN_UP
         case OtherFailure => Done(Fault)
         case Body(chunks, end) => Going(Streaming(targets + [next], chunks, end, 0, [])))
    case Streaming(targets, chunks, end, n, body) =>
      if n < |chunks| then
        if |body| + |chunks[n]| > maxBytes then GIVEN_UP
        else Going(Streaming(targets, chunks, end, n + 1, body + chunks[n]))
      else if end.OtherError? then Done(Fault)
      else if end.HttpError? || body == [] then GIVEN_UP
      else Going(Encoding(body))
    case Encoding(body) => Done(ResultOf(web.encode(body)))
  }

  ghost predicate DownloadInv(web: Web, url: string, maxBytes: nat, download: Download) {
    match download
    case Requesting(targets, next) => |targets| <= MAX_REDIRECTS && Reached(web, url, targets, next)
    case Streaming(targets, chunks, end, n, body) =>
      && IsWalk(web, url, targets)
      && web.respond(|targets| - 1, targets[|targets| - 1]) == Body(chunks, end)
      && n <= |chunks| && body == Concat(chunks[..n]) && |body| <= maxBytes
    case Encoding(body) => Delivers(web, url, maxBytes, Delivered(body)) && |body| <= maxBytes
  }

  /** What the image at a URL comes to if nothing cuts its download short. */
  ghost predicate IsResult(web: Web, url: string, maxBytes: nat, result: Result) {
    exists delivery :: Delivers(web, url, maxBytes, delivery) && result == DeliveredResult(web, delivery)
  }

  lemma AdvanceIsSound(web: Web, url: string, maxBytes: nat, download: Download)
    requires DownloadInv(web, url, maxBytes, download)
    ensures match Advance(web, maxBytes, download)
            case Going(further) => DownloadInv(web, url, maxBytes, further)
            case Done(result) => IsResult(web, url, maxBytes, result)
  {
    hide Delivers, Concat, IsRedirectChain;
    match download
    case Requesting(targets, next) =>
      RequestIsSound(web, url, maxBytes, targets, next);
    case Streaming(targets, chunks, end, n, body) =>
      StreamIsSound(web, url, maxBytes, targets, chunks, end, n, body);
    case Encoding(body) =>
      assert DeliveredResult(web, Delivered(body)) == ResultOf(web.encode(body));
  }

  lemma RequestIsSound(web: Web, url: string, maxBytes: nat, targets: seq<string>, next: string)
    requires DownloadInv(web, url, maxBytes, Requesting(targets, next))
    ensures match Advance(web, maxBytes, Requesting(targets, next))
            case Going(further) => DownloadInv(web, url, maxBytes, further)
            case Done(result) => IsResult(web, url, maxBytes, result)
  {
    hide IsRedirectChain, Delivers, Concat;
    if !web.allowed(next) {
      Refused(web, url, targets, next, maxBytes);
      assert DeliveredResult(web, Nothing) == Returned(None);
    } else {
      HopTaken(web, url, targets, next);
      var requested := targets + [next];
      var response := web.respond(|targets|, next);
      if response.Body? {
        assert response.chunks[..0] == [];
        NothingYet();
      } else if NextHop(web, |targets|, next).None? || |targets| == MAX_REDIRECTS {
        ChainEnds(web, url, requested, maxBytes);
        assert Advance(web, maxBytes, Requesting(targets, next))
            == Done(DeliveredResult(web, LastDelivery(web, requested, maxBytes)));
      }
    }
  }

  lemma NothingYet()
    ensures Concat([]) == []
  {
  }

  lemma StreamIsSound(web: Web, url: string, maxBytes: nat, targets: seq<string>, chunks: seq<Bytes>, end: BodyEnd,
                      n: nat, body: Bytes)
    requires DownloadInv(web, url, maxBytes, Streaming(targets, chunks, end, n, body))
    ensures match Advance(web, maxBytes, Streaming(targets, chunks, end, n, body))
            case Going(further) => DownloadInv(web, url, maxBytes, further)
            case Done(result) => IsResult(web, url, maxBytes, result)
  {
    ChainEnds(web, url, targets, maxBytes);
    hide Delivers;
    var delivery := LastDelivery(web, targets, maxBytes);
    assert delivery == BodyDelivery(chunks, end, maxBytes);
    hide IsRedirectChain, LastDelivery;
    if n < |chunks| {
      assert chunks[..n + 1][..n] == chunks[..n];
      ConcatGrows(chunks, n + 1);
      assert |body| + |chunks[n]| > maxBytes ==> DeliveredResult(web, delivery) == Returned(None);
    } else {
      assert chunks[..n] == chunks;
      assert end.OtherError? ==> DeliveredResult(web, delivery) == Fault;
      assert end.HttpError? || (end.Complete? && body == []) ==> DeliveredResult(web, delivery) == Returned(None);
    }
  }

  /** Where a download comes to if its events go on without interruption. */
  function Outcome(web: Web, maxBytes: nat, download: Download): Result
    requires download.Requesting? ==> |download.targets| <= MAX_REDIRECTS
    decreases if download.Requesting? then 2 else if download.Streaming? then 1 else 0,
              if download.Requesting? then MAX_REDIRECTS - |download.targets|
              else if download.Streaming? then |download.chunks| - download.n else 0
  {
    match Advance(web, maxBytes, download)
    case Done(result) => result
    case Going(further) => Outcome(web, maxBytes, further)
  }

  lemma {:induction false} OutcomeIsResult(web: Web, url: string, maxBytes: nat, download: Download)
    requires DownloadInv(web, url, maxBytes, download)
    ensures IsResult(web, url, maxBytes, Outcome(web, maxBytes, download))
    decreases if download.Requesting? then 2 else if download.Streaming? then 1 else 0,
              if download.Requesting? then MAX_REDIRECTS - |download.targets|
              else if download.Streaming? then |download.chunks| - download.n else 0
  {
    hide IsResult, Delivers, Reached, IsRedirectChain;
    AdvanceIsSound(web, url, maxBytes, download);
    match Advance(web, maxBytes, download)
    case Done(_) =>
    case Going(further) => OutcomeIsResult(web, url, maxBytes, further);
  }

  lemma ResultIsUnique(web: Web, url: string, maxBytes: nat, a: Result, b: Result)
    requires IsResult(web, url, maxBytes, a) && IsResult(web, url, maxBytes, b)
    ensures a == b
  {
    hide Delivers;
    var p :| Delivers(web, url, maxBytes, p) && a == DeliveredResult(web, p);
    var q :| Delivers(web, url, maxBytes, q) && b == DeliveredResult(web, q);
    DeliversOneThing(web, url, maxBytes, p, q);
  }

  /** One image: its bytes, then what the decoding pool makes of them; the same as its events left alone. */
  method FetchOne(web: Web, url: string, maxBytes: nat) returns (result: Result, ghost requested: seq<string>)
    ensures |requested| <= 6 && forall target <- requested :: web.allowed(target)
    ensures IsResult(web, url, maxBytes, result)
    ensures result == Outcome(web, maxBytes, Requesting([], url))
  {
    hide Delivers, Outcome;
    var delivery: Delivery;
    delivery, requested := FetchBody(web, url, maxBytes);
    match delivery {
      case Delivered(body) => result := ResultOf(web.encode(body));
      case Nothing => result := Returned(None);
      case Raised => result := Fault;
    }
    assert result == DeliveredResult(web, delivery);
    OutcomeIsResult(web, url, maxBytes, Requesting([], url));
    ResultIsUnique(web, url, maxBytes, result, Outcome(web, maxBytes, Requesting([], url)));
  }
}
