/**
 * The receive handler (`showboat_receive`): the gates a request passes, the
 * markdown each command renders, and the chunk table it writes to.
 */
module Receiver {
  import opened Common
  import opened Fence
  import opened Markdown
  import opened Store

  /**
   * A request to the receive endpoint: the HTTP method, the `token` query
   * parameter, the text fields of the form, and the bytes of the `image`
   * file part when there is one.
   */
  datatype Request = Request(
    httpMethod: string,
    queryToken: Option<string>,
    form: map<string, string>,
    imageFile: Option<seq<byte>>)

  /** What the handler decides to do with a request. */
  datatype Outcome =
    | Rejected(status: nat, error: string)
    | Append(showboatId: string, markdown: string, image: Option<seq<byte>>)
    | RemoveNewest(showboatId: string)

  datatype Body = OkBody | ErrorBody(message: string)

  /** The JSON response: `{"ok": true}` or `{"error": message}` with a status. */
  datatype Response = Response(status: nat, body: Body)

  /** `form.get(key, default)`. */
  function Field(form: map<string, string>, key: string, default: string): string {
    if key in form then form[key] else default
  }

  /** The configured token guards the endpoint when it is set and non-empty. */
  predicate TokenRequired(expected: Option<string>) {
    expected.Some? && expected.value != ""
  }

  predicate IsKnownCommand(command: string) {
    command in ["init", "note", "exec", "image", "pop"]
  }

  /** The request passes the method and token gates. */
  predicate PassesGates(req: Request, expected: Option<string>) {
    req.httpMethod == "POST" && !(TokenRequired(expected) && req.queryToken != expected)
  }

  /**
   * The handler's decision: method check, token check, required fields, then
   * dispatch on the command.
   */
  function Decide(req: Request, expected: Option<string>): (r: Outcome)
    ensures r == Rejected(405, "Method not allowed") <==> req.httpMethod != "POST"
    ensures r == Rejected(403, "Invalid token") <==>
      req.httpMethod == "POST" && TokenRequired(expected) && req.queryToken != expected
    ensures r.Rejected? ==> r.status in {400, 403, 405}
    ensures r.Rejected? && r.status == 400 <==>
      PassesGates(req, expected) &&
      (Field(req.form, "uuid", "") == "" || !IsKnownCommand(Field(req.form, "command", "")))
    ensures !r.Rejected? ==>
      PassesGates(req, expected) && r.showboatId == Field(req.form, "uuid", "") != ""
    ensures r.RemoveNewest? <==>
      PassesGates(req, expected) && Field(req.form, "uuid", "") != "" && Field(req.form, "command", "") == "pop"
    ensures r.Append? && r.image.Some? ==> Field(req.form, "command", "") == "image" && r.image == req.imageFile
  {
    if req.httpMethod != "POST" then Rejected(405, "Method not allowed")
    else if TokenRequired(expected) && req.queryToken != expected then Rejected(403, "Invalid token")
    else
      var uuid := Field(req.form, "uuid", "");
      var command := Field(req.form, "command", "");
      if uuid == "" || command == "" then Rejected(400, "uuid and command are required")
      else if command == "init" then
        Append(uuid, InitMarkdown(Field(req.form, "title", "Untitled")), None)
      else if command == "note" then
        Append(uuid, Field(req.form, "markdown", ""), None)
      else if command == "exec" then
        Append(uuid, ExecMarkdown(Field(req.form, "language", ""), Field(req.form, "input", ""),
                                  Field(req.form, "output", "")), None)
      else if command == "image" then
        Append(uuid, ImageMarkdown(Field(req.form, "input", ""), Field(req.form, "alt", "")), req.imageFile)
      else if command == "pop" then RemoveNewest(uuid)
      else Rejected(400, "Unknown command: " + command)
  }

  /** The response for each outcome: the error, 201 after an insert, 200 after a pop. */
  function ResponseTo(o: Outcome): (r: Response)
    ensures r.body.OkBody? <==> !o.Rejected?
    ensures o.Append? ==> r.status == 201
    ensures o.RemoveNewest? ==> r.status == 200
  {
    match o
    case Rejected(status, error) => Response(status, ErrorBody(error))
    case Append(_, _, _) => Response(201, OkBody)
    case RemoveNewest(_) => Response(200, OkBody)
  }

  /** A command outside the known five is refused with a message naming it. */
  lemma UnknownCommandRefused(req: Request, expected: Option<string>)
    requires PassesGates(req, expected)
    requires Field(req.form, "uuid", "") != "" && Field(req.form, "command", "") != ""
    requires !IsKnownCommand(Field(req.form, "command", ""))
    ensures Decide(req, expected) == Rejected(400, "Unknown command: " + Field(req.form, "command", ""))
  {
  }

  /**
   * The markdown stored for each content command reads back into the fields
   * it was rendered from; only `image` stores the uploaded bytes, unchanged.
   */
  lemma StoredMarkdownReadsBack(req: Request, expected: Option<string>)
    requires Decide(req, expected).Append?
    ensures var o, form := Decide(req, expected), req.form;
      var command := Field(form, "command", "");
      && (command == "init" ==> ReadInit(o.markdown) == Some(Field(form, "title", "Untitled")))
      && (command == "note" ==> o.markdown == Field(form, "markdown", ""))
      && (command == "exec" && InfoString(Field(form, "language", "")) ==>
            ReadExec(o.markdown) == Some((Field(form, "language", ""), Field(form, "input", ""), Field(form, "output", ""))))
      && (command == "image" ==>
            ReadImage(o.markdown) == Some((Field(form, "input", ""), Field(form, "alt", ""))) && o.image == req.imageFile)
      && (command != "image" ==> o.image == None)
  {
    var form := req.form;
    var command := Field(form, "command", "");
    if command == "init" {
      InitRoundTrip(Field(form, "title", "Untitled"));
    } else if command == "exec" && InfoString(Field(form, "language", "")) {
      ExecRoundTrip(Field(form, "language", ""), Field(form, "input", ""), Field(form, "output", ""));
    } else if command == "image" {
      ImageRoundTrip(Field(form, "input", ""), Field(form, "alt", ""));
    }
  }

  /**
   * The `showboat_chunks` table. `lastId` is the table's AUTOINCREMENT
   * counter; `issued` records every id ever handed out, popped ones included.
   */
  class ChunkTable {
    var rows: seq<Row>
    var lastId: nat
    ghost var issued: set<nat>

    ghost predicate Valid()
      reads this
    {
      && IdsAscending(rows)
      && (forall i :: 0 <= i < |rows| ==> rows[i].id in issued)
      && (forall id :: id in issued ==> 1 <= id <= lastId)
    }

    /** The empty table `startup` creates. */
    constructor ()
      ensures Valid() && rows == [] && lastId == 0 && issued == {}
    {
      rows, lastId, issued := [], 0, {};
    }

    /** INSERT of one row; AUTOINCREMENT gives it the next id. */
    method Insert(showboatId: string, createdAt: string, markdown: string, image: Option<seq<byte>>)
      requires Valid()
      modifies this
      ensures Valid()
      ensures lastId == old(lastId) + 1 && issued == old(issued) + {lastId}
      ensures forall id :: id in old(issued) ==> id < lastId
      ensures rows == old(rows) + [Row(lastId, showboatId, createdAt, markdown, image)]
    {
      lastId := lastId + 1;
      issued := issued + {lastId};
      rows := rows + [Row(lastId, showboatId, createdAt, markdown, image)];
    }

    /** The `pop` DELETE of the document's newest row; nothing when it has none. */
    method Pop(showboatId: string)
      requires Valid()
      modifies this
      ensures Valid()
      ensures rows == WithoutNewest(old(rows), showboatId)
      ensures lastId == old(lastId) && issued == old(issued)
    {
      PopKeepsIdOrder(rows, showboatId);
      rows := WithoutNewest(rows, showboatId);
    }

    /**
     * `showboat_receive`: the gates in order, then one insert per content
     * command, one delete for `pop`. A rejected request changes nothing.
     */
    method Receive(req: Request, expected: Option<string>, createdAt: string) returns (resp: Response)
      requires Valid()
      modifies this
      ensures Valid()
      ensures resp == ResponseTo(Decide(req, expected))
      ensures Decide(req, expected).Rejected? ==>
        rows == old(rows) && lastId == old(lastId) && issued == old(issued)
      ensures Decide(req, expected).Append? ==>
        var o := Decide(req, expected);
        && lastId == old(lastId) + 1
        && (forall id :: id in old(issued) ==> id < lastId)
        && rows == old(rows) + [Row(lastId, o.showboatId, createdAt, o.markdown, o.image)]
      ensures Decide(req, expected).RemoveNewest? ==>
        rows == WithoutNewest(old(rows), Decide(req, expected).showboatId)
        && lastId == old(lastId) && issued == old(issued)
    {
      if req.httpMethod != "POST" {
        return Response(405, ErrorBody("Method not allowed"));
      }
      if TokenRequired(expected) && req.queryToken != expected {
        return Response(403, ErrorBody("Invalid token"));
      }
      var uuid := Field(req.form, "uuid", "");
      var command := Field(req.form, "command", "");
      if uuid == "" || command == "" {
        return Response(400, ErrorBody("uuid and command are required"));
      }
      if command == "init" {
        var title := Field(req.form, "title", "Untitled");
        Insert(uuid, createdAt, "# " + title, None);
      } else if command == "note" {
        var markdown := Field(req.form, "markdown", "");
        Insert(uuid, createdAt, markdown, None);
      } else if command == "exec" {
        var language := Field(req.form, "language", "");
        var input := Field(req.form, "input", "");
        var output := Field(req.form, "output", "");
        var codeFence := MakeFence(input);
        var outputFence := MakeFence(output);
        var markdown := codeFence + language + "\n" + input + "\n" + codeFence + "\n\n"
          + outputFence + "output\n" + output + "\n" + outputFence;
        assert markdown == ExecMarkdown(language, input, output);
        Insert(uuid, createdAt, markdown, None);
      } else if command == "image" {
        var input := Field(req.form, "input", "");
        var alt := Field(req.form, "alt", "");
        var fence := MakeFence(input);
        var markdown := fence + "bash {image}\n" + input + "\n" + fence;
        if alt != "" {
          markdown := markdown + "\n\n![" + alt + "]()";
        }
        assert markdown == ImageMarkdown(input, alt);
        Insert(uuid, createdAt, markdown, req.imageFile);
      } else if command == "pop" {
        Pop(uuid);
        return Response(200, OkBody);
      } else {
        return Response(400, ErrorBody("Unknown command: " + command));
      }
      return Response(201, OkBody);
    }
  }
}
