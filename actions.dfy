/**
 * Starting and stopping a project through the gateway's action endpoint,
 * and the JSON text the requests carry.
 */
module Actions {
  import opened Common

  datatype Action = Start | Stop

  /** The `action` member the gateway expects. */
  function ActionName(a: Action): string
  {
    match a
    case Start => "START"
    case Stop => "STOP"
  }

  /** The two kinds of JSON value these requests use: a string, and an object of string members. */
  datatype Json = JString(s: string) | JObject(members: seq<(string, string)>)

  /** The value of the first member named `key`, if any. */
  function Lookup(members: seq<(string, string)>, key: string): Option<string>
  {
    if |members| == 0 then None
    else if members[0].0 == key then Some(members[0].1)
    else Lookup(members[1..], key)
  }

  /** String escaping of `json.dumps` for quotes, backslashes and newlines. */
  function Escape(s: string): (r: string)
    ensures |r| >= |s|
    ensures '\n' !in r
    decreases |s|
  {
    if |s| == 0 then ""
    else
      var c := s[0];
      (if c == '"' then "\\\"" else if c == '\\' then "\\\\" else if c == '\n' then "\\n" else [c])
      + Escape(s[1..])
  }

  /** The inverse of `Escape` on its output: undoes the three escapes it writes. */
  function Unescape(s: string): string
    decreases |s|
  {
    if |s| == 0 then ""
    else if s[0] == '\\' && |s| >= 2 then
      (if s[1] == 'n' then "\n" else [s[1]]) + Unescape(s[2..])
    else [s[0]] + Unescape(s[1..])
  }

  lemma {:induction false} UnescapeEscape(s: string)
    ensures Unescape(Escape(s)) == s
    decreases |s|
  {
    if |s| > 0 {
      UnescapeEscape(s[1..]);
      var c := s[0];
      var head := if c == '"' then "\\\"" else if c == '\\' then "\\\\" else if c == '\n' then "\\n" else [c];
      assert Escape(s) == head + Escape(s[1..]);
      if c == '"' || c == '\\' || c == '\n' {
        assert (head + Escape(s[1..]))[2..] == Escape(s[1..]);
      } else {
        assert (head + Escape(s[1..]))[1..] == Escape(s[1..]);
      }
      assert s == [c] + s[1..];
    }
  }

  /** `json.dumps` with its default separators. */
  function Dumps(j: Json): (r: string)
    ensures |r| >= 2
    ensures j.JString? ==> r[0] == '"' && r[|r| - 1] == '"' && Unescape(r[1..|r| - 1]) == j.s
    ensures j.JObject? ==> r[0] == '{' && r[|r| - 1] == '}'
  {
    match j
    case JString(s) =>
      UnescapeEscape(s);
      assert Quote(s)[1..|Quote(s)| - 1] == Escape(s);
      Quote(s)
    case JObject(members) => "{" + DumpMembers(members) + "}"
  }

  /** A string literal: the escaped text between double quotes. */
  function Quote(s: string): string
  {
    "\"" + Escape(s) + "\""
  }

  /** One `key: value` pair of an object, both as string literals. */
  function Member(key: string, value: string): string
  {
    Quote(key) + ": " + Quote(value)
  }

  function DumpMembers(members: seq<(string, string)>): string
  {
    if |members| == 0 then ""
    else
      Member(members[0].0, members[0].1)
      + (if |members| == 1 then "" else ", " + DumpMembers(members[1..]))
  }

  /** The dictionary both start and stop build. */
  function ActionPayload(action: Action, projId: string, instance: string): (p: Json)
    ensures p.JObject?
    ensures Lookup(p.members, "action") == Some(ActionName(action))
    ensures Lookup(p.members, "id") == Some(projId)
    ensures Lookup(p.members, "instanceId") == Some(instance)
    ensures |p.members| == 3 && (set m | m in p.members :: m.0) == {"action", "id", "instanceId"}
  {
    var members := [("action", ActionName(action)), ("id", projId), ("instanceId", instance)];
    assert |"action"| != |"instanceId"| && |"id"| != |"instanceId"|;
    assert Lookup(members, "instanceId") == Lookup(members[1..], "instanceId");
    assert members[1..][1..] == [("instanceId", instance)];
    assert Lookup(members[1..], "instanceId") == Lookup(members[1..][1..], "instanceId");
    JObject(members)
  }

  /** The per-project action endpoint. */
  function ActionUrl(host: string, projId: string): string
  {
    "http://" + host + "/aws/gateway/project/" + projId + "/action"
  }

  datatype Request = Request(url: string, body: string)

  /**
   * The request as written: the payload is serialised in the start/stop
   * method and the resulting string serialised again by the POST helper.
   */
  function ActionRequestAsWritten(host: string, projId: string, instance: string, action: Action): (req: Request)
    ensures req.url == ActionUrl(host, projId)
    ensures |req.body| >= 2 && req.body[0] == '"' && req.body[|req.body| - 1] == '"'
  {
    Request(ActionUrl(host, projId), Dumps(JString(Dumps(ActionPayload(action, projId, instance)))))
  }

  /** The request with the payload serialised once, as the gateway expects an object. */
  function ActionRequest(host: string, projId: string, instance: string, action: Action): (req: Request)
    ensures req.url == ActionUrl(host, projId)
    ensures |req.body| >= 2 && req.body[0] == '{' && req.body[|req.body| - 1] == '}'
  {
    Request(ActionUrl(host, projId), Dumps(ActionPayload(action, projId, instance)))
  }

  /**
   * The singly serialised body is exactly the text `json.dumps` writes for
   * the three-member payload, in insertion order, with `", "` between the
   * members and `": "` between a key and its value.
   */
  lemma ActionRequestBody(host: string, projId: string, instance: string, action: Action)
    ensures ActionRequest(host, projId, instance, action).body ==
      "{" + (Member("action", ActionName(action)) + ", " + Member("id", projId) + ", "
          + Member("instanceId", instance)) + "}"
  {
    var m := [("action", ActionName(action)), ("id", projId), ("instanceId", instance)];
    var p := ActionPayload(action, projId, instance);
    assert p.members == m;
    assert ActionRequest(host, projId, instance, action).body == "{" + DumpMembers(m) + "}";
    DumpThreeMembers(("action", ActionName(action)), ("id", projId), ("instanceId", instance));
  }

  /** Three members serialise to their texts separated by `", "`. */
  lemma DumpThreeMembers(a: (string, string), b: (string, string), c: (string, string))
    ensures DumpMembers([a, b, c]) == Member(a.0, a.1) + ", " + Member(b.0, b.1) + ", " + Member(c.0, c.1)
  {
    assert DumpMembers([c]) == Member(c.0, c.1);
    DumpMembersCons(b, [c]);
    assert [b] + [c] == [b, c];
    DumpMembersCons(a, [b, c]);
    assert [a] + [b, c] == [a, b, c];
    Regroup(Member(a.0, a.1), Member(b.0, b.1), Member(c.0, c.1));
  }

  /** A member in front of at least one other is followed by `", "`. */
  lemma DumpMembersCons(a: (string, string), rest: seq<(string, string)>)
    requires |rest| > 0
    ensures DumpMembers([a] + rest) == Member(a.0, a.1) + ", " + DumpMembers(rest)
  {
    assert ([a] + rest)[1..] == rest;
  }

  /** Regrouping three member texts joined by `", "`. */
  lemma Regroup(x: string, y: string, z: string)
    ensures x + ", " + (y + ", " + z) == x + ", " + y + ", " + z
  {
  }

  /**
   * The body sent as written is a JSON string literal, not an object: a
   * reader finds the intended object's text only after decoding it once.
   */
  lemma DoubleEncodedBody(host: string, projId: string, instance: string, action: Action)
    ensures var written := ActionRequestAsWritten(host, projId, instance, action).body;
            var intended := ActionRequest(host, projId, instance, action).body;
            written[0] == '"' && intended[0] == '{' &&
            written == "\"" + Escape(intended) + "\"" &&
            Unescape(written[1..|written| - 1]) == intended
  {
    var intended := ActionRequest(host, projId, instance, action).body;
    var written := ActionRequestAsWritten(host, projId, instance, action).body;
    assert written[1..|written| - 1] == Escape(intended);
    UnescapeEscape(intended);
  }

  /**
   * `open_dremio_project`: posts the START payload; the result is whether
   * the gateway's answer was truthy. The gateway is the parameter `post`.
   */
  function OpenDremioProject(host: string, projId: string, instance: string, post: Request -> bool): (ok: bool)
    ensures ok <==> post(Request(ActionUrl(host, projId), Dumps(ActionPayload(Start, projId, instance))))
  {
    post(ActionRequest(host, projId, instance, Start))
  }

  /** `stop_dremio_project`: the same request with the STOP payload. */
  function StopDremioProject(host: string, projId: string, instance: string, post: Request -> bool): (ok: bool)
    ensures ok <==> post(Request(ActionUrl(host, projId), Dumps(ActionPayload(Stop, projId, instance))))
  {
    post(ActionRequest(host, projId, instance, Stop))
  }
}
