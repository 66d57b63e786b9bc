/** Client settings as seen by `getSettings` and `setSettings`
    (server/models/client.js): the unit transforms applied on the way out of
    and into the client, the positional zip of the raw response back to
    setting keys, and the payload rewrite before a set request. Numbers are
    exact reals. */
module Settings {
  import opened Wrappers

  const ThrottleGlobalDownMax: string := "throttleGlobalDownMax"
  const ThrottleGlobalUpMax: string := "throttleGlobalUpMax"
  const PiecesMemoryMax: string := "piecesMemoryMax"

  /** The key JavaScript produces when a lookup yields `undefined`. */
  const UndefinedKey: string := "undefined"

  /** The table `outboundTransformation` of `getSettings`: the divisor that
      turns a raw client value into the value shown to users. */
  function OutboundDivisor(key: string): Option<real>
  {
    if key == ThrottleGlobalDownMax then Some(1024.0)
    else if key == ThrottleGlobalUpMax then Some(1024.0)
    else if key == PiecesMemoryMax then Some(1024.0 * 1024.0)
    else None
  }

  /** The table `inboundTransformation` of `setSettings`: the factor that
      turns a user value into the raw client value. */
  function InboundFactor(key: string): Option<real>
  {
    if key == PiecesMemoryMax then Some(1024.0 * 1024.0)
    else if key == ThrottleGlobalUpMax then Some(1024.0)
    else if key == ThrottleGlobalDownMax then Some(1024.0)
    else None
  }

  /** Raw client value to user value: the two throttles are shown in KiB,
      the piece cache in MiB, and untransformed keys pass through. */
  function Outbound(key: string, raw: real): (v: real)
    ensures key == ThrottleGlobalDownMax || key == ThrottleGlobalUpMax ==> v * 1024.0 == raw
    ensures key == PiecesMemoryMax ==> v * 1048576.0 == raw
    ensures key != ThrottleGlobalDownMax && key != ThrottleGlobalUpMax && key != PiecesMemoryMax ==> v == raw
  {
    match OutboundDivisor(key)
    case None => raw
    case Some(d) => raw / d
  }

  /** User value to raw client value: the two throttles are scaled up from
      KiB, the piece cache from MiB, and untransformed keys pass through. */
  function Inbound(key: string, value: real): (r: real)
    ensures key == ThrottleGlobalDownMax || key == ThrottleGlobalUpMax ==> r / 1024.0 == value
    ensures key == PiecesMemoryMax ==> r / 1048576.0 == value
    ensures key != ThrottleGlobalDownMax && key != ThrottleGlobalUpMax && key != PiecesMemoryMax ==> r == value
  {
    match InboundFactor(key)
    case None => value
    case Some(f) => value * f
  }

  /** The two tables are symmetric: a key has an outbound transform exactly
      when it has an inbound one, with the same positive scale. */
  lemma TransformTablesSymmetric(key: string)
    ensures OutboundDivisor(key).Some? <==> InboundFactor(key).Some?
    ensures OutboundDivisor(key).Some? ==>
      OutboundDivisor(key) == InboundFactor(key) && OutboundDivisor(key).value > 0.0
  {
  }

  /** Round trip, in both directions, for every key. */
  lemma TransformRoundTrip(key: string, v: real)
    ensures Inbound(key, Outbound(key, v)) == v
    ensures Outbound(key, Inbound(key, v)) == v
  {
    TransformTablesSymmetric(key);
  }

  /** A raw 1048576 for the piece-cache ceiling shows as 1, and 1 sets
      1048576. */
  lemma PiecesMemoryExample()
    ensures Outbound(PiecesMemoryMax, 1048576.0) == 1.0
    ensures Inbound(PiecesMemoryMax, 1.0) == 1048576.0
    ensures Outbound(ThrottleGlobalDownMax, 2048.0) == 2.0
  {
  }

  /** `clientSettingsMap[requestedSettingsKeys[index]]`, with JavaScript's
      `undefined` for an index past the requested keys or an unmapped key. */
  function SettingsKeyAt(settingsMap: map<string, string>, requested: seq<string>, i: nat): (key: string)
    ensures i < |requested| && requested[i] in settingsMap ==> key == settingsMap[requested[i]]
    ensures i < |requested| && requested[i] !in settingsMap ==> key == UndefinedKey
    ensures i >= |requested| && UndefinedKey !in settingsMap ==> key == UndefinedKey
    ensures i >= |requested| && UndefinedKey in settingsMap ==> key == settingsMap[UndefinedKey]
  {
    var raw := if i < |requested| then requested[i] else UndefinedKey;
    if raw in settingsMap then settingsMap[raw] else UndefinedKey
  }

  /** No key later in `keys` repeats `keys[i]`. */
  predicate LastWithKey(keys: seq<string>, i: nat)
    requires i < |keys|
  {
    forall j :: i < j < |keys| ==> keys[j] != keys[i]
  }

  /** The `forEach` that writes `response[key] = value` left to right: every
      key of the response is one of the keys, and each key holds the
      transformed value from its last position. */
  function Zip(keys: seq<string>, raw: seq<real>): (response: map<string, real>)
    requires |keys| == |raw|
    ensures forall k :: k in response <==> k in keys
    ensures forall i :: 0 <= i < |keys| && LastWithKey(keys, i) ==>
      response[keys[i]] == Outbound(keys[i], raw[i])
  {
    if |keys| == 0 then map[]
    else
      var n := |keys| - 1;
      var earlier := Zip(keys[..n], raw[..n]);
      assert keys == keys[..n] + [keys[n]];
      LastWithKeyInPrefix(keys, n);
      earlier[keys[n] := Outbound(keys[n], raw[n])]
  }

  /** A position that is last for its key in `keys` is also last for it in
      any prefix that contains it. */
  lemma LastWithKeyInPrefix(keys: seq<string>, n: nat)
    requires n <= |keys|
    ensures forall i :: 0 <= i < n && LastWithKey(keys, i) ==> LastWithKey(keys[..n], i)
  {
    forall i | 0 <= i < n && LastWithKey(keys, i) ensures LastWithKey(keys[..n], i) {
      assert forall j :: i < j < n ==> keys[..n][j] == keys[j];
    }
  }

  /** The keys a response of `n` values is written under. */
  function ResponseKeys(settingsMap: map<string, string>, requested: seq<string>, n: nat): (keys: seq<string>)
    ensures |keys| == n
    ensures forall i :: 0 <= i < n ==> keys[i] == SettingsKeyAt(settingsMap, requested, i)
  {
    seq(n, i requires 0 <= i < n => SettingsKeyAt(settingsMap, requested, i))
  }

  /** The `postProcess` of `getSettings`: a falsy response gives `null`;
      otherwise the first element of each datum is zipped, by position, with
      the requested keys. */
  function PostProcess(settingsMap: map<string, string>, requested: seq<string>,
                       data: Option<seq<real>>): (response: Option<map<string, real>>)
    ensures response.None? <==> data.None?
    ensures response.Some? ==> forall i :: 0 <= i < |data.value| ==>
      SettingsKeyAt(settingsMap, requested, i) in response.value
    ensures response.Some? ==> forall k :: k in response.value ==>
      exists i :: 0 <= i < |data.value| && k == SettingsKeyAt(settingsMap, requested, i)
    ensures response.Some? ==>
      response.value == Zip(ResponseKeys(settingsMap, requested, |data.value|), data.value)
  {
    match data
    case None => None
    case Some(raw) =>
      var keys := ResponseKeys(settingsMap, requested, |raw|);
      assert forall i :: 0 <= i < |raw| ==> keys[i] in Zip(keys, raw);
      Some(Zip(keys, raw))
  }

  /** With distinct keys, each position's value lands transformed under its
      own key. */
  lemma PostProcessPositional(settingsMap: map<string, string>, requested: seq<string>, raw: seq<real>, i: nat)
    requires i < |raw|
    requires forall j :: 0 <= j < |raw| && j != i ==>
      SettingsKeyAt(settingsMap, requested, j) != SettingsKeyAt(settingsMap, requested, i)
    ensures var key := SettingsKeyAt(settingsMap, requested, i);
      PostProcess(settingsMap, requested, Some(raw)).value[key] == Outbound(key, raw[i])
  {
    var keys := ResponseKeys(settingsMap, requested, |raw|);
    assert LastWithKey(keys, i);
  }

  /** One entry of a `setSettings` payload list. */
  datatype Payload = Payload(id: string, data: real)

  /** `callback({})` for an empty list, else the set request's payloads. */
  datatype SetSettingsOutcome = EmptyReply | Sent(settings: seq<Payload>)

  /** The `payloads.map` step: a transformed key's data is scaled into client
      units; any other payload is passed on unchanged. */
  function TransformPayload(p: Payload): (q: Payload)
    ensures q.id == p.id
    ensures InboundFactor(p.id).None? ==> q == p
    ensures Outbound(q.id, q.data) == p.data
  {
    TransformRoundTrip(p.id, p.data);
    Payload(p.id, Inbound(p.id, p.data))
  }

  /** `setSettings(user, payloads, callback)`: nothing is sent for an empty
      list; otherwise one payload per input, in input order, each keeping its
      id and reading back through the outbound transform as the user's
      value. */
  function SetSettings(payloads: seq<Payload>): (r: SetSettingsOutcome)
    ensures r.EmptyReply? <==> |payloads| == 0
    ensures r.Sent? ==> |r.settings| == |payloads|
    ensures r.Sent? ==> forall i :: 0 <= i < |payloads| ==>
      r.settings[i].id == payloads[i].id &&
      (InboundFactor(payloads[i].id).None? ==> r.settings[i] == payloads[i]) &&
      Outbound(r.settings[i].id, r.settings[i].data) == payloads[i].data
  {
    if |payloads| == 0 then EmptyReply
    else Sent(seq(|payloads|, i requires 0 <= i < |payloads| => TransformPayload(payloads[i])))
  }

  /** The ids of a payload list, in order. */
  function Ids(ps: seq<Payload>): (ids: seq<string>)
    ensures |ids| == |ps| && forall i :: 0 <= i < |ps| ==> ids[i] == ps[i].id
  {
    seq(|ps|, i requires 0 <= i < |ps| => ps[i].id)
  }

  /** The data of a payload list, in order. */
  function Data(ps: seq<Payload>): (data: seq<real>)
    ensures |data| == |ps| && forall i :: 0 <= i < |ps| ==> data[i] == ps[i].data
  {
    seq(|ps|, i requires 0 <= i < |ps| => ps[i].data)
  }

  /** Setting distinct keys and then zipping the raw values the client stored
      back under those keys shows each user exactly the value they set. */
  lemma SetThenGetRoundTrip(payloads: seq<Payload>, i: nat)
    requires i < |payloads|
    requires forall j, k :: 0 <= j < k < |payloads| ==> payloads[j].id != payloads[k].id
    ensures var sent := SetSettings(payloads).settings;
      var response := Zip(Ids(sent), Data(sent));
      payloads[i].id in response && response[payloads[i].id] == payloads[i].data
  {
    var sent := SetSettings(payloads).settings;
    var keys := Ids(sent);
    assert keys[i] == payloads[i].id;
    assert LastWithKey(keys, i);
  }
}
