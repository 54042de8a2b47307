/** The two request-body schemas, with the validator's default rules: a
    string must be non-empty, a required key must be present, and a key the
    schema does not mention is refused. */
module Schema {
  import opened Options
  import opened Seqs
  import opened Chat

  /** The fields of a client message that the handler stores. */
  datatype Draft = Draft(to: string, text: string, kind: MessageType)

  predicate OnlyKeys(b: Body, allowed: set<string>)
  {
    b.Keys <= allowed
  }

  predicate RequiredString(b: Body, key: string)
  {
    key in b && b[key].Str? && b[key].s != ""
  }

  predicate OptionalString(b: Body, key: string)
  {
    key in b ==> b[key].Str? && b[key].s != ""
  }

  /** The validator refuses infinite numbers and numbers outside the safe
      integer range unless told otherwise. */
  predicate OptionalNumber(b: Body, key: string)
  {
    key in b ==> b[key].Num? && b[key].safe
  }

  /** The participant schema: a required name, an optional numeric
      `lastStatus`, nothing else. The accepted name is returned. */
  function CheckParticipant(b: Body): (r: Option<string>)
    ensures forall n :: r == Some(n) <==>
              n != "" && (b == JoinBody(n) || b == JoinBody(n)["lastStatus" := Num(true)])
  {
    if OnlyKeys(b, {"name", "lastStatus"}) && RequiredString(b, "name") && OptionalNumber(b, "lastStatus")
    then
      var n := b["name"].s;
      assert b == if "lastStatus" in b then JoinBody(n)["lastStatus" := Num(true)] else JoinBody(n);
      Some(n)
    else None
  }

  /** The `type` values a client may send: "message" and "private_message",
      but never "status". */
  function ParseClientType(s: string): (r: Option<MessageType>)
    ensures r.None? <==> s != TypeName(PublicMessage) && s != TypeName(PrivateMessage)
    ensures r.Some? ==> TypeName(r.value) == s && r.value != StatusNotice
  {
    if s == "message" then Some(PublicMessage)
    else if s == "private_message" then Some(PrivateMessage)
    else None
  }

  /** The message schema: required non-empty `to` and `text`, a required
      client `type`, optional string `from` and `time`, nothing else. The
      accepted body is a client draft plus the optional fields. */
  function CheckMessage(b: Body): (r: Option<Draft>)
    ensures forall d :: r == Some(d) <==>
              && d.to != "" && d.text != "" && d.kind != StatusNotice
              && b - {"from", "time"} == DraftBody(d)
              && OptionalString(b, "from") && OptionalString(b, "time")
  {
    if && OnlyKeys(b, {"from", "to", "text", "type", "time"})
       && RequiredString(b, "to") && RequiredString(b, "text")
       && "type" in b && b["type"].Str? && ParseClientType(b["type"].s).Some?
       && OptionalString(b, "from") && OptionalString(b, "time")
    then
      var d := Draft(b["to"].s, b["text"].s, ParseClientType(b["type"].s).value);
      ValidBodyIsDraftShape(b, d);
      DraftBodyInjective(d);
      Some(d)
    else
      DraftShapeIsValid(b);
      None
  }

  /** A body that passes the message schema is its draft plus the optional
      fields. */
  lemma ValidBodyIsDraftShape(b: Body, d: Draft)
    requires b.Keys <= {"from", "to", "text", "type", "time"}
    requires "to" in b && b["to"] == Str(d.to)
    requires "text" in b && b["text"] == Str(d.text)
    requires "type" in b && b["type"] == Str(TypeName(d.kind))
    ensures b - {"from", "time"} == DraftBody(d)
  {
  }

  /** Different drafts give different bodies. */
  lemma DraftBodyInjective(d: Draft)
    ensures forall d': Draft :: DraftBody(d') == DraftBody(d) ==> d' == d
  {
    forall d': Draft | DraftBody(d') == DraftBody(d)
      ensures d' == d
    {
      assert DraftBody(d')["type"] == DraftBody(d)["type"];
      assert TypeName(d'.kind) == TypeName(d.kind);
      assert DraftBody(d')["to"] == DraftBody(d)["to"];
      assert DraftBody(d')["text"] == DraftBody(d)["text"];
    }
  }

  /** A body shaped like a client draft plus optional non-empty `from` and
      `time` passes every rule of the message schema. */
  lemma DraftShapeIsValid(b: Body)
    ensures (exists d: Draft :: && d.to != "" && d.text != "" && d.kind != StatusNotice
                                && b - {"from", "time"} == DraftBody(d)
                                && OptionalString(b, "from") && OptionalString(b, "time"))
            ==> && OnlyKeys(b, {"from", "to", "text", "type", "time"})
                && RequiredString(b, "to") && RequiredString(b, "text")
                && "type" in b && b["type"].Str? && ParseClientType(b["type"].s).Some?
  {
    if exists d: Draft :: && d.to != "" && d.text != "" && d.kind != StatusNotice
                          && b - {"from", "time"} == DraftBody(d)
                          && OptionalString(b, "from") && OptionalString(b, "time") {
      var d: Draft :| && d.to != "" && d.text != "" && d.kind != StatusNotice
                      && b - {"from", "time"} == DraftBody(d)
                      && OptionalString(b, "from") && OptionalString(b, "time");
      var core := b - {"from", "time"};
      assert core.Keys == {"to", "text", "type"};
      assert b.Keys <= core.Keys + {"from", "time"};
      assert "to" in core && b["to"] == core["to"];
      assert "text" in core && b["text"] == core["text"];
      assert "type" in core && b["type"] == core["type"] == Str(TypeName(d.kind));
    }
  }

  /** The body a client sends to join as `name`. */
  function JoinBody(name: string): Body
  {
    map["name" := Str(name)]
  }

  /** The body a client sends to post `d`. */
  function DraftBody(d: Draft): Body
  {
    map["to" := Str(d.to), "text" := Str(d.text), "type" := Str(TypeName(d.kind))]
  }

  /** A join body is accepted exactly when the name is non-empty, and the
      name read back is the one sent. */
  lemma JoinBodyRoundTrip(name: string)
    ensures CheckParticipant(JoinBody(name)) == (if name == "" then None else Some(name))
  {
  }

  /** A message body is accepted exactly when `to` and `text` are non-empty
      and the type is a client type, and the draft read back is the one sent. */
  lemma DraftBodyRoundTrip(d: Draft)
    ensures CheckMessage(DraftBody(d)) ==
              (if d.to == "" || d.text == "" || d.kind == StatusNotice then None else Some(d))
  {
  }
}
