/** Messages as the parsers fill them. */
module Messages {
  import opened Bytes
  import opened HeaderNames

  /** A start line that was recognised. Its target and version are not looked into. */
  datatype Info = Request(line: bytes) | Response(line: bytes, code: nat)

  /** A header and its values in order; a single value stands alone in the table. */
  datatype Field = Field(name: bytes, values: seq<bytes>)

  datatype Message = Message(info: Option<Info>, headers: seq<Field>, body: bytes)

  /** What recognises a start line, given the line without its end. */
  type InfoParser = bytes -> Option<Info>

  function FindField(hs: seq<Field>, name: bytes): (i: nat)
    ensures i <= |hs|
    ensures forall j :: 0 <= j < i ==> hs[j].name != name
    ensures i < |hs| ==> hs[i].name == name
  {
    if hs == [] || hs[0].name == name then 0 else 1 + FindField(hs[1..], name)
  }

  /** A repeated header becomes a list, at the place of the first one. */
  function AddField(hs: seq<Field>, name: bytes, value: bytes): seq<Field> {
    var i := FindField(hs, name);
    if i < |hs| then hs[i := Field(name, hs[i].values + [value])] else hs + [Field(name, [value])]
  }

  function SetField(hs: seq<Field>, name: bytes, values: seq<bytes>): seq<Field> {
    var i := FindField(hs, name);
    if i < |hs| then hs[i := Field(name, values)] else hs + [Field(name, values)]
  }

  function DropField(hs: seq<Field>, name: bytes): seq<Field> {
    var i := FindField(hs, name);
    if i < |hs| then hs[..i] + hs[i + 1..] else hs
  }

  /** A header's values, looked up under its canonical name. */
  function Lookup(hs: seq<Field>, name: bytes): Option<seq<bytes>> {
    var i := FindField(hs, Canonical(name));
    if i < |hs| then Some(hs[i].values) else None
  }

  function Last(ms: seq<Message>): Message
    requires ms != []
  {
    ms[|ms| - 1]
  }

  function WithLast(ms: seq<Message>, m: Message): seq<Message>
    requires ms != []
  {
    ms[|ms| - 1 := m]
  }

  /** The newest message is the last one. A start line opens a new message unless the last is blank. */
  function OnInfo(ms: seq<Message>, info: Info): (r: seq<Message>)
    ensures r != []
  {
    if ms == [] || Last(ms).info.Some? || Last(ms).headers != [] then ms + [Message(Some(info), [], [])]
    else WithLast(ms, Last(ms).(info := Some(info)))
  }

  /** A header goes to the newest message; there is one from then on. */
  function OnField(ms: seq<Message>, name: bytes, value: bytes): (r: seq<Message>)
    ensures r != []
  {
    if ms == [] then [Message(None, AddField([], name, value), [])]
    else WithLast(ms, Last(ms).(headers := AddField(Last(ms).headers, name, value)))
  }
}
