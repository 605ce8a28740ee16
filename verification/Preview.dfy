/** Preview negotiation (section 4.5 of RFC 3507): the server reads a preview, asks the handler,
    and only then, if it has to, asks the client for the rest. */
module Preview {
  import opened Wrappers
  import opened Wire
  import opened Chunked

  const DEFAULT_MAX_BODY_BYTES := 0x80_0000

  const CONTINUE := "ICAP/1.0 100 Continue\r\n\r\n"

  datatype Verb = Options | Reqmod | Respmod | Unknown

  /** `previewSize` is negative when the client sent no Preview header. */
  datatype Request = Request(
    verb: Verb, hasBody: bool, previewSize: int, body: string, bodyTruncated: bool, previewComplete: bool)

  datatype Response = Response(status: nat, payload: string)

  const NO_CONTENT := Response(204, "")
  const NOT_IMPLEMENTED := Response(501, "")

  /** The two hooks of a handler, `Preview` and `Modify`; no answer from the first asks for the whole body. */
  datatype Handler = Handler(preview: Request -> Option<Response>, finish: Request -> Option<Response>)

  /** What one transaction does: its answer, the requests each hook was shown, the interim bytes
      written, and the bytes of the connection consumed. */
  datatype Outcome = Outcome(
    result: Result<Response, WireError>, previewed: seq<Request>, modified: seq<Request>, written: string, used: nat)

  function AnswerOf(h: Handler, req: Request): Response {
    match h.finish(req) case Some(resp) => resp case None => NO_CONTENT
  }

  function Modified(h: Handler, req: Request, previewed: seq<Request>, written: string, used: nat): Outcome {
    Outcome(Ok(AnswerOf(h, req)), previewed, [req], written, used)
  }

  /** `req` with the part of a decoded body that fits. */
  function WithBody(req: Request, total: string, limit: nat, complete: bool): Request {
    req.(body := Take(total, limit), bodyTruncated := |total| > limit, previewComplete := complete)
  }

  /** The transaction's outcome on the connection bytes `w`. */
  function OutcomeOf(h: Handler, limit: nat, req: Request, w: string): Outcome {
    if !req.hasBody then Modified(h, req, [], "", 0)
    else
      match BodyOf(w)
      case Err(e) => Outcome(Err(e), [], [], "", 0)
      case Ok(first) =>
        if req.previewSize < 0 then Modified(h, WithBody(req, first.total, limit, true), [], "", first.used)
        else
          var seen := WithBody(req, first.total, limit, first.ieof);
          match h.preview(seen)
          case Some(resp) => Outcome(Ok(resp), [seen], [], "", first.used)
          case None =>
            if first.ieof then Modified(h, seen, [seen], "", first.used)
            else
              match BodyOf(w[first.used..])
              case Err(e) => Outcome(Err(e), [seen], [], CONTINUE, first.used)
              case Ok(rest) =>
                Modified(h, WithBody(req, first.total + rest.total, limit, false), [seen], CONTINUE, first.used + rest.used)
  }

  class Server {
    const handler: Option<Handler>
    const optionsResponse: Request -> Response
    const maxBodyBytes: int
    var previewed: seq<Request>
    var modified: seq<Request>

    constructor (handler: Option<Handler>, optionsResponse: Request -> Response, maxBodyBytes: int)
      ensures this.handler == handler && this.optionsResponse == optionsResponse && this.maxBodyBytes == maxBodyBytes
      ensures previewed == [] && modified == []
    {
      this.handler, this.optionsResponse, this.maxBodyBytes := handler, optionsResponse, maxBodyBytes;
      previewed, modified := [], [];
    }

    function MaxBodyBytes(): nat {
      if maxBodyBytes > 0 then maxBodyBytes else DEFAULT_MAX_BODY_BYTES
    }

    /** Show the handler the final request; no answer means no modification. */
    method CallModify(req: Request) returns (resp: Response)
      requires handler.Some?
      modifies this`modified
      ensures modified == old(modified) + [req] && resp == AnswerOf(handler.value, req)
    {
      modified := modified + [req];
      var answer := handler.value.finish(req);
      resp := if answer.Some? then answer.value else NO_CONTENT;
    }

    /** After a preview that was not the whole body: ask for the rest, and show the handler everything. */
    method AskForRest(br: Reader, bw: Writer, req0: Request, ghost original: Request, ghost first: string)
      returns (res: Result<Response, WireError>)
      requires br.Valid() && handler.Some? && req0 == WithBody(original, first, MaxBodyBytes(), false)
      modifies this`modified, br, bw
      ensures br.Valid() && bw.out == old(bw.out) + CONTINUE
      ensures match BodyOf(old(br.Rest()))
              case Err(e) => res == Err(e) && modified == old(modified)
              case Ok(rest) =>
                var whole := WithBody(original, first + rest.total, MaxBodyBytes(), false);
                && res == Ok(AnswerOf(handler.value, whole)) && modified == old(modified) + [whole]
                && br.Rest() == old(br.Rest())[rest.used..]
    {
      hide BodyOf, Take, CONTINUE;
      var req := req0;
      ghost var w := br.Rest();
      bw.WriteString(CONTINUE);
      TakeAppend(first, "", MaxBodyBytes());
      var rest := ReadChunkedBody(br, MaxBodyBytes() - |req.body|);
      if rest.Err? {
        return Err(rest.error);
      }
      TakeAppend(first, BodyOf(w).value.total, MaxBodyBytes());
      req := req.(body := req.body + rest.value.body, bodyTruncated := req.bodyTruncated || rest.value.truncated);
      var resp := CallModify(req);
      return Ok(resp);
    }

    /** Drive preview negotiation and call the handler. */
    method Decide(br: Reader, bw: Writer, req0: Request) returns (res: Result<Response, WireError>)
      requires br.Valid()
      modifies this, br, bw
      ensures br.Valid()
      ensures req0.verb == Options ==> res == Ok(optionsResponse(req0))
      ensures req0.verb == Unknown ==> res == Ok(NOT_IMPLEMENTED)
      ensures req0.verb in {Reqmod, Respmod} && handler.None? ==> res == Ok(NO_CONTENT)
      ensures req0.verb in {Options, Unknown} || handler.None? ==>
        previewed == old(previewed) && modified == old(modified) && bw.out == old(bw.out) && br.Rest() == old(br.Rest())
      ensures req0.verb in {Reqmod, Respmod} && handler.Some? ==>
        var o := OutcomeOf(handler.value, MaxBodyBytes(), req0, old(br.Rest()));
        && res == o.result
        && previewed == old(previewed) + o.previewed && modified == old(modified) + o.modified
        && bw.out == old(bw.out) + o.written
        && (res.Ok? ==> o.used <= |old(br.Rest())| && br.Rest() == old(br.Rest())[o.used..])
    {
      hide BodyOf, Take, CONTINUE;
      if req0.verb == Options {
        return Ok(optionsResponse(req0));
      }
      if req0.verb != Reqmod && req0.verb != Respmod {
        return Ok(NOT_IMPLEMENTED);
      }
      if handler.None? {
        return Ok(NO_CONTENT);
      }
      var req := req0;
      if !req.hasBody {
        var resp := CallModify(req);
        return Ok(resp);
      }
      if req.previewSize >= 0 {
        var first := ReadChunkedBody(br, MaxBodyBytes());
        if first.Err? {
          return Err(first.error);
        }
        req := req.(body := first.value.body, previewComplete := first.value.ieof, bodyTruncated := first.value.truncated);
        previewed := previewed + [req];
        var early := handler.value.preview(req);
        if early.Some? {
          return Ok(early.value);
        }
        if req.previewComplete {
          var resp := CallModify(req);
          return Ok(resp);
        }
        res := AskForRest(br, bw, req, req0, BodyOf(old(br.Rest())).value.total);
        return;
      }
      var whole := ReadChunkedBody(br, MaxBodyBytes());
      if whole.Err? {
        return Err(whole.error);
      }
      req := req.(body := whole.value.body, bodyTruncated := whole.value.truncated, previewComplete := true);
      var resp := CallModify(req);
      return Ok(resp);
    }
  }

  // Preview is transparent.

  lemma {:induction false} JoinedChunks(chunks: seq<Chunk>, more: seq<Chunk>)
    ensures ChunkBytes(chunks + more) == ChunkBytes(chunks) + ChunkBytes(more)
    ensures DataOf(chunks + more) == DataOf(chunks) + DataOf(more)
  {
    hide Chunk.Bytes;
    if chunks == [] {
      assert chunks + more == more;
    } else {
      assert (chunks + more)[1..] == chunks[1..] + more;
      JoinedChunks(chunks[1..], more);
    }
  }

  /** After `used` bytes of `w`, exactly `after` is left. */
  predicate Leaves(w: string, used: nat, after: string) {
    used <= |w| && w[used..] == after
  }

  lemma LeavesAfter(first: string, rest: string, after: string)
    ensures Leaves(first + (rest + after), |first| + |rest|, after)
    ensures Leaves(first + after, |first|, after)
  {
  }

  /** The previewed transaction: a preview that did not end the body, then the rest of it. */
  lemma PreviewThenRest(h: Handler, limit: nat, req: Request, chunks: seq<Chunk>, t: Tail, more: seq<Chunk>,
                        u: Tail, after: string)
    requires req.hasBody && req.previewSize >= 0
    requires ValidChunks(chunks) && t.Valid() && !t.SaysIEOF() && ValidChunks(more) && u.Valid()
    requires h.preview(WithBody(req, DataOf(chunks), limit, false)).None?
    ensures var w := ChunkBytes(chunks) + t.Bytes() + (ChunkBytes(more) + u.Bytes() + after);
            var o := OutcomeOf(h, limit, req, w);
            && o == Modified(h, WithBody(req, DataOf(chunks + more), limit, false),
                             [WithBody(req, DataOf(chunks), limit, false)], CONTINUE, o.used)
            && Leaves(w, o.used, after)
  {
    hide BodyOf, ChunkBytes, Tail.Bytes, Tail.SaysIEOF, Tail.Valid, ValidChunks, Take;
    var first := ChunkBytes(chunks) + t.Bytes();
    var rest := ChunkBytes(more) + u.Bytes();
    BodyRoundTrip(chunks, t, rest + after);
    assert (first + (rest + after))[|first|..] == rest + after;
    BodyRoundTrip(more, u, after);
    JoinedChunks(chunks, more);
    LeavesAfter(first, rest, after);
  }

  /** The same body sent without a preview. */
  lemma WithoutPreview(h: Handler, limit: nat, req: Request, chunks: seq<Chunk>, u: Tail, after: string)
    requires req.hasBody && req.previewSize < 0 && ValidChunks(chunks) && u.Valid()
    ensures var w := ChunkBytes(chunks) + u.Bytes() + after;
            var o := OutcomeOf(h, limit, req, w);
            o == Modified(h, WithBody(req, DataOf(chunks), limit, true), [], "", o.used) && Leaves(w, o.used, after)
  {
    hide BodyOf;
    BodyRoundTrip(chunks, u, after);
    LeavesAfter(ChunkBytes(chunks) + u.Bytes(), "", after);
  }

  /** Preview transparency: when the handler lets the preview pass, it is shown the final request
      exactly once, with the same body and the same truncation flag as if preview and remainder had
      come as one body without a preview; one `100 Continue` is written in between; and the
      connection is left at the same following bytes. */
  lemma PreviewIsTransparent(h: Handler, limit: nat, req: Request, chunks: seq<Chunk>, t: Tail,
                             more: seq<Chunk>, u: Tail, after: string)
    requires req.hasBody && req.previewSize >= 0
    requires ValidChunks(chunks) && t.Valid() && !t.SaysIEOF() && ValidChunks(more) && u.Valid()
    requires h.preview(WithBody(req, DataOf(chunks), limit, false)).None?
    ensures var w := ChunkBytes(chunks) + t.Bytes() + (ChunkBytes(more) + u.Bytes() + after);
            var w' := ChunkBytes(chunks + more) + u.Bytes() + after;
            var o := OutcomeOf(h, limit, req, w);
            var o' := OutcomeOf(h, limit, req.(previewSize := -1), w');
            && |o.modified| == |o'.modified| == 1
            && o.modified[0].body == o'.modified[0].body && o.modified[0].bodyTruncated == o'.modified[0].bodyTruncated
            && o.written == CONTINUE && o'.written == ""
            && Leaves(w, o.used, after) && Leaves(w', o'.used, after)
  {
    PreviewThenRest(h, limit, req, chunks, t, more, u, after);
    assert ValidChunks(chunks + more);
    WithoutPreview(h, limit, req.(previewSize := -1), chunks + more, u, after);
    hide OutcomeOf, ChunkBytes, Tail.Bytes, DataOf, ValidChunks, Tail.Valid, Tail.SaysIEOF, Take, Leaves;
  }

  /** A preview that says `ieof` is the whole body: nothing is written and nothing more is read. */
  lemma CompletePreviewEndsThere(h: Handler, limit: nat, req: Request, chunks: seq<Chunk>, t: Tail, after: string)
    requires req.hasBody && req.previewSize >= 0
    requires ValidChunks(chunks) && t.Valid() && t.SaysIEOF()
    requires h.preview(WithBody(req, DataOf(chunks), limit, true)).None?
    ensures var w := ChunkBytes(chunks) + t.Bytes() + after;
            var o := OutcomeOf(h, limit, req, w);
            && o.modified == [WithBody(req, DataOf(chunks), limit, true)] && o.written == ""
            && Leaves(w, o.used, after)
  {
    hide BodyOf;
    BodyRoundTrip(chunks, t, after);
    LeavesAfter(ChunkBytes(chunks) + t.Bytes(), "", after);
  }
}
