/**
 * The on-demand revalidation endpoint of src/app/api/revalidate/route.ts.
 * The JSON body is reduced to the two members the handler looks at.
 */
module RevalidateRoute {
  import opened Wrappers
  import Revalidation

  /** A body member as far as the handler distinguishes it. */
  datatype Member = Absent | Text(s: string) | List(items: seq<string>) | OtherValue

  datatype Body = Body(secret: Member, paths: Member)

  /** `request.json()`: None when parsing throws, which is swallowed. */
  type ParsedBody = Option<Body>

  /**
   * `x-revalidate-token || (typeof body?.secret === 'string' ? body.secret : null)`;
   * None stands for both null and the empty string, the two falsy outcomes.
   */
  function SelectToken(header: Option<string>, body: ParsedBody): (t: Option<string>)
    ensures header.Some? && header.value != "" ==> t == header
    ensures (header.None? || header.value == "") && body.Some? && body.value.secret.Text? ==>
              t == (if body.value.secret.s == "" then None else Some(body.value.secret.s))
    ensures (header.None? || header.value == "") && (body.None? || !body.value.secret.Text?) ==> t.None?
    ensures t.Some? ==> t.value != ""
  {
    if header.Some? && header.value != "" then header
    else if body.Some? && body.value.secret.Text? && body.value.secret.s != "" then Some(body.value.secret.s)
    else None
  }

  /** `Array.isArray(body?.paths) ? body.paths : undefined`. */
  function SelectPaths(body: ParsedBody): (p: Option<seq<string>>)
    ensures p.Some? <==> body.Some? && body.value.paths.List?
    ensures p.Some? ==> p.value == body.value.paths.items
  {
    if body.Some? && body.value.paths.List? then Some(body.value.paths.items) else None
  }

  datatype Response =
    | Skipped      // 500 {skipped: true}
    | Unauthorized // 401
    | Revalidated(paths: Option<seq<string>>)

  function Status(r: Response): nat {
    match r
    case Skipped => 500
    case Unauthorized => 401
    case Revalidated(_) => 200
  }

  /**
   * `POST /api/revalidate`, given the header, the parsed body and
   * REVALIDATE_SECRET (None or "" is unset). Returns the response and the
   * paths handed to `revalidatePath`, in order.
   */
  function Post(header: Option<string>, body: ParsedBody, secret: Option<string>): (out: (Response, seq<string>))
    ensures secret.None? || secret.value == "" ==> out == (Skipped, [])
    ensures secret.Some? && secret.value != "" && SelectToken(header, body) != secret ==> out == (Unauthorized, [])
    ensures out.0.Revalidated? <==> secret.Some? && secret.value != "" && SelectToken(header, body) == secret
    ensures out.0.Revalidated? ==>
              out.0.paths == SelectPaths(body) && out.1 == Revalidation.PathsFor(SelectPaths(body))
  {
    var token := SelectToken(header, body);
    if secret.None? || secret.value == "" then (Skipped, [])
    else if token.None? || token != secret then (Unauthorized, [])
    else
      var paths := SelectPaths(body);
      (Revalidated(paths), Revalidation.PathsFor(paths))
  }

  /** An unparseable body is no error: with the right header the defaults are revalidated. */
  lemma UnparseableBodyUsesDefaults(header: string, secret: string)
    requires header != "" && header == secret
    ensures Post(Some(header), None, Some(secret)) == (Revalidated(None), ["/", "/portfolio"])
  {
  }

  /** Nothing is revalidated unless the response is 200. */
  lemma OnlyAuthorisedRequestsRevalidate(header: Option<string>, body: ParsedBody, secret: Option<string>)
    ensures var out := Post(header, body, secret);
            Status(out.0) != 200 ==> out.1 == []
    ensures var out := Post(header, body, secret);
            Status(out.0) in {200, 401, 500}
  {
  }

  /** A supplied token does not help while the secret is unset. */
  lemma UnsetSecretSkipsEvenWithToken(header: string, body: ParsedBody)
    ensures Post(Some(header), body, None) == (Skipped, [])
  {
  }
}
