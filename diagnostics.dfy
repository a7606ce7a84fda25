/** The UDS diagnostic request path of the v1.1 tool: the buttons of the
    diagnostics tab build a request dictionary, the main window checks that
    a worker may start, and `DiagnosticWorker.run` resolves the ISO-TP
    addresses, finds the ODX service, fills its request parameters, encodes
    the request, exchanges it with the ECU and classifies the answer.

    ODX (odxtools) and ISO-TP (isotp) appear as data and oracles: an ECU is
    its service table, its negative-response table and the outcome of its
    two address lookups; encoding, the exchange and decoding are functions
    passed in. */
module Diagnostics {
  import opened Common

  // ---------------------------------------------------------------------
  // Requests

  /** `request_details`: the request type and its integer fields. */
  datatype Details = Details(kind: string, fields: map<string, int>)

  /** What a button handler does with the user's input. */
  datatype Built =
    | MissingSelection   // nothing chosen in the combo box
    | InvalidInput       // the chosen or typed value is rejected
    | Request(details: Details)

  /** The DTC report types (sub-functions of ReadDTCInformation) that take
      a status mask. */
  predicate NeedsMask(subfunction: int) {
    subfunction == 0x01 || subfunction == 0x02 || subfunction == 0x17
  }

  /** `on_read_did_clicked`; `data` is the combo box's item data, None when
      it is not an integer. */
  function BuildReadDid(index: int, data: Option<int>): (r: Built)
    ensures index < 0 <==> r == MissingSelection
    ensures r == InvalidInput <==> index >= 0 && (data.None? || data.value < 0)
    ensures r.Request? ==> r.details == Details("read_did", map["did" := data.value]) && data.value >= 0
  {
    if index < 0 then MissingSelection
    else if data.None? || data.value < 0 then InvalidInput
    else Request(Details("read_did", map["did" := data.value]))
  }

  /** `int(text.strip(), 16)` on the typed text. */
  function HexField(text: string): Option<nat> {
    ParseHex(Strip(text))
  }

  /** `on_read_dtc_clicked`: a mask is read, as hexadecimal text, only for
      the report types that need one, and must lie in 0..0xFF. */
  function BuildReadDtc(index: int, subfunction: int, maskText: string): (r: Built)
    ensures index < 0 <==> r == MissingSelection
    ensures r == InvalidInput <==>
      index >= 0 && NeedsMask(subfunction) && (HexField(maskText).None? || HexField(maskText).value > 0xFF)
    ensures r.Request? ==>
      && r.details.kind == "read_dtc"
      && "subfunction" in r.details.fields && r.details.fields["subfunction"] == subfunction
      && ("mask" in r.details.fields <==> NeedsMask(subfunction))
      && ("mask" in r.details.fields ==> r.details.fields["mask"] == HexField(maskText).value <= 0xFF)
      && |r.details.fields| == (if NeedsMask(subfunction) then 2 else 1)
  {
    if index < 0 then MissingSelection
    else if NeedsMask(subfunction) then
      match HexField(maskText)
      case None => InvalidInput
      case Some(mask) =>
        if mask > 0xFF then InvalidInput
        else Request(Details("read_dtc", map["subfunction" := subfunction, "mask" := mask]))
    else Request(Details("read_dtc", map["subfunction" := subfunction]))
  }

  /** `on_clear_dtc_clicked`: the group of DTC as hexadecimal text in
      0..0xFFFFFF. */
  function BuildClearDtc(groupText: string): (r: Built)
    ensures r != MissingSelection
    ensures r == InvalidInput <==> HexField(groupText).None? || HexField(groupText).value > 0xFF_FFFF
    ensures r.Request? ==> r.details == Details("clear_dtc", map["group" := HexField(groupText).value])
  {
    match HexField(groupText)
    case None => InvalidInput
    case Some(group) =>
      if group > 0xFF_FFFF then InvalidInput
      else Request(Details("clear_dtc", map["group" := group]))
  }

  /** `on_reset_ecu_clicked` */
  function BuildEcuReset(index: int, resetType: int): (r: Built)
    ensures index < 0 <==> r == MissingSelection
    ensures r != InvalidInput
    ensures r.Request? ==> r.details == Details("ecu_reset", map["subfunction" := resetType])
  {
    if index < 0 then MissingSelection
    else Request(Details("ecu_reset", map["subfunction" := resetType]))
  }

  /** The typed group of DTC is accepted exactly for the hexadecimal
      texts of 0..0xFFFFFF, with or without a `0x` prefix. */
  lemma ClearDtcAcceptsHex(group: nat)
    requires group <= 0xFF_FFFF
    ensures BuildClearDtc(ToHex(group)) == Request(Details("clear_dtc", map["group" := group]))
    ensures BuildClearDtc("0x" + ToHex(group)) == Request(Details("clear_dtc", map["group" := group]))
  {
    var h := ToHex(group);
    HexRoundTrip(group);
    StripUnchanged(h);
    assert ("0x" + h)[2..] == h;
    StripUnchanged("0x" + h);
  }

  // ---------------------------------------------------------------------
  // May a request start?

  /** The verdict of `_emit_diagnostic_action` in the diagnostics tab. */
  datatype EmitVerdict = TabNoNetwork | TabNoEcu | TabNoNetworkData | TabNotConnected | TabBusy | Emitted

  /** The tab's checks, in their order: a network is selected, an ECU is
      selected, the main window knows the network, the network is connected
      and no diagnostic worker of that network is running. */
  function EmitAction(networkSelected: bool, ecuSelected: bool, networkKnown: bool,
                      connected: bool, workerRunning: bool): (r: EmitVerdict)
    ensures r == Emitted <==> networkSelected && ecuSelected && networkKnown && connected && !workerRunning
    ensures !networkSelected ==> r == TabNoNetwork
    ensures networkSelected && !ecuSelected ==> r == TabNoEcu
    ensures workerRunning ==> r != Emitted
  {
    if !networkSelected then TabNoNetwork
    else if !ecuSelected then TabNoEcu
    else if !networkKnown then TabNoNetworkData
    else if !connected then TabNotConnected
    else if workerRunning then TabBusy
    else Emitted
  }

  /** The verdict of `handle_diagnostic_action` in the main window. */
  datatype GateVerdict = InvalidNetworkId | Busy | NotConnected | NoEcuSelected | NoOdxLoaded | StartWorker

  /** The main window's checks, in their order. `Busy` is only reported
      (an information box), the others are errors. */
  function Gate(networkKnown: bool, workerRunning: bool, connected: bool, busPresent: bool,
                ecuSelected: bool, odxLoaded: bool): (r: GateVerdict)
    ensures r == StartWorker <==>
      networkKnown && !workerRunning && connected && busPresent && ecuSelected && odxLoaded
    ensures !networkKnown ==> r == InvalidNetworkId
    ensures networkKnown && workerRunning ==> r == Busy
    ensures networkKnown && !workerRunning && (!connected || !busPresent) ==> r == NotConnected
  {
    if !networkKnown then InvalidNetworkId
    else if workerRunning then Busy
    else if !connected || !busPresent then NotConnected
    else if !ecuSelected then NoEcuSelected
    else if !odxLoaded then NoOdxLoaded
    else StartWorker
  }

  // ---------------------------------------------------------------------
  // The ECU as ODX describes it

  /** What one of `get_can_receive_id` / `get_can_send_id` does. */
  datatype IdLookup = IdFound(id: nat) | IdNone | IdRaises

  /** A diagnostic service: its short name and the short names of its
      request parameters, in declaration order (empty also when it has no
      request at all). */
  datatype Service = Service(shortName: string, requestParams: seq<string>)

  datatype Ecu = Ecu(
    services: map<string, Service>,       // `ecu.services`, by short name
    negativeResponses: map<int, string>,  // NRC code to its short name
    receiveId: IdLookup,                  // the identifier the ECU listens on
    sendId: IdLookup)                     // the identifier the ECU answers from

  // ---------------------------------------------------------------------
  // Addressing

  const DefaultTxId: nat := 0x7E0
  const DefaultRxId: nat := 0x7E8

  /** The request and response identifiers, as the two Python variables
      that may hold None. A lookup that returns None falls back to its
      default; if either lookup raises, both fall back. */
  function ResolveAddressing(ecu: Ecu): (r: (Option<nat>, Option<nat>))
    ensures r.0.Some? && r.1.Some?
    ensures ecu.receiveId.IdRaises? || ecu.sendId.IdRaises? ==> r == (Some(DefaultTxId), Some(DefaultRxId))
    ensures !ecu.receiveId.IdRaises? && !ecu.sendId.IdRaises? ==>
      && r.0.value == (if ecu.receiveId.IdFound? then ecu.receiveId.id else DefaultTxId)
      && r.1.value == (if ecu.sendId.IdFound? then ecu.sendId.id else DefaultRxId)
  {
    if ecu.receiveId.IdRaises? || ecu.sendId.IdRaises? then (Some(DefaultTxId), Some(DefaultRxId))
    else
      var tx := if ecu.receiveId.IdFound? then Some(ecu.receiveId.id) else None;
      var rx := if ecu.sendId.IdFound? then Some(ecu.sendId.id) else None;
      (if tx.None? then Some(DefaultTxId) else tx, if rx.None? then Some(DefaultRxId) else rx)
  }

  // ---------------------------------------------------------------------
  // Service lookup

  /** The request types the worker can translate to a UDS service name
      when the type is not itself a service short name. */
  const Aliases: map<string, string> := map[
    "read_did" := "ReadDataByIdentifier",
    "read_dtc" := "ReadDTCInformation",
    "clear_dtc" := "ClearDiagnosticInformation",
    "ecu_reset" := "ECUReset",
    "security_access" := "SecurityAccess",
    "write_did" := "WriteDataByIdentifier"]

  /** The service for a request type: by short name first, then through
      the alias table. */
  function FindService(services: map<string, Service>, kind: string): (r: Option<Service>)
    ensures kind in services ==> r == Some(services[kind])
    ensures kind !in services ==>
      r == (if kind in Aliases && Aliases[kind] in services then Some(services[Aliases[kind]]) else None)
  {
    if kind in services then Some(services[kind])
    else if kind in Aliases && Aliases[kind] in services then Some(services[Aliases[kind]])
    else None
  }

  /** A request type is served exactly when it or its alias names a
      service of the ECU. */
  lemma FindServiceFound(services: map<string, Service>, kind: string)
    ensures FindService(services, kind).Some? <==>
      kind in services || (kind in Aliases && Aliases[kind] in services)
    ensures FindService(services, kind).Some? ==>
      FindService(services, kind).value in services.Values
  {
  }

  // ---------------------------------------------------------------------
  // Errors and results

  datatype DiagError =
    | InvalidNetwork
    | NoValidEcu
    | NotConnectedBus
    | NoAddressing
    | UnknownService(kind: string)
    | MissingField(field: string)
    | NoRequestParams(service: string)
    | NotImplemented(kind: string)
    | EncodeRaised
    | EmptyEncoding(service: string)
    | Timeout
    | DecodeRaised
    | UndecodablePositive(sid: byte)
    | EmptyResponse
    | NrcNotNumeric

  /** A decoded parameter value: an integer, or anything `{:02X}`
      formatting rejects. */
  datatype ParamValue = IntValue(n: int) | OtherValue(text: string)

  /** What `ecu.decode(raw_response)` does. */
  datatype DecodeResult =
    | Undecoded
    | DecodeFails
    | DecodedMessage(service: Option<string>, positive: bool, params: map<string, ParamValue>)

  datatype Outcome =
    | Positive(service: string, params: map<string, ParamValue>)
    | Negative(service: string, nrc: int, description: string)
    | Failed(error: DiagError)

  /** The arguments of the worker's `finished` signal; `rawResponse` is
      None when the exchange timed out. */
  datatype DiagResult = DiagResult(success: bool, outcome: Outcome, rawRequest: seq<byte>, rawResponse: Option<seq<byte>>)

  datatype Result<T> = Ok(value: T) | Err(error: DiagError)

  // ---------------------------------------------------------------------
  // Parameters

  /** The request field that fills the first parameter of each supported
      request type. */
  function MainField(kind: string): string {
    if kind == "read_did" then "did"
    else if kind == "clear_dtc" then "group"
    else "subfunction"
  }

  predicate Supported(kind: string) {
    kind == "read_did" || kind == "read_dtc" || kind == "clear_dtc" || kind == "ecu_reset"
  }

  /** A status mask fills the second request parameter. */
  predicate MaskApplies(kind: string, fields: map<string, int>, params: seq<string>) {
    kind == "read_dtc" && |params| > 1 && "mask" in fields
  }

  /** The worker's parameter dictionary: the main field goes to the first
      declared parameter and, for ReadDTCInformation, a supplied mask to the
      second one. The field is read before the parameter list is checked. */
  function MapParams(kind: string, fields: map<string, int>, service: Service): (r: Result<map<string, int>>)
    ensures !Supported(kind) ==> r == Err(NotImplemented(kind))
    ensures Supported(kind) && MainField(kind) !in fields ==> r == Err(MissingField(MainField(kind)))
    ensures Supported(kind) && MainField(kind) in fields && service.requestParams == [] ==>
      r == Err(NoRequestParams(service.shortName))
    ensures r.Ok? <==> Supported(kind) && MainField(kind) in fields && service.requestParams != []
    ensures r.Ok? ==>
      var p := service.requestParams;
      && r.value.Keys == {p[0]} + (if MaskApplies(kind, fields, p) then {p[1]} else {})
      && (MaskApplies(kind, fields, p) ==> r.value[p[1]] == fields["mask"])
      && (!MaskApplies(kind, fields, p) || p[0] != p[1] ==> r.value[p[0]] == fields[MainField(kind)])
  {
    if !Supported(kind) then Err(NotImplemented(kind))
    else if MainField(kind) !in fields then Err(MissingField(MainField(kind)))
    else if service.requestParams == [] then Err(NoRequestParams(service.shortName))
    else
      var p := service.requestParams;
      var first := map[p[0] := fields[MainField(kind)]];
      if MaskApplies(kind, fields, p) then Ok(first[p[1] := fields["mask"]]) else Ok(first)
  }

  /** Every request the buttons build carries the field the worker reads,
      so only a service without request parameters stops it here; a mask
      is used exactly when the report type needs one and the service has
      a second parameter. */
  lemma BuiltRequestsMap(index: int, data: Option<int>, subfunction: int, maskText: string,
                         groupText: string, service: Service)
    ensures var b := BuildReadDid(index, data);
      b.Request? ==> (MapParams(b.details.kind, b.details.fields, service).Ok? <==> service.requestParams != [])
    ensures var b := BuildReadDtc(index, subfunction, maskText);
      b.Request? ==>
        && (MapParams(b.details.kind, b.details.fields, service).Ok? <==> service.requestParams != [])
        && (MaskApplies(b.details.kind, b.details.fields, service.requestParams) <==>
              NeedsMask(subfunction) && |service.requestParams| > 1)
    ensures var b := BuildClearDtc(groupText);
      b.Request? ==> (MapParams(b.details.kind, b.details.fields, service).Ok? <==> service.requestParams != [])
    ensures var b := BuildEcuReset(index, subfunction);
      b.Request? ==> (MapParams(b.details.kind, b.details.fields, service).Ok? <==> service.requestParams != [])
  {
  }

  // ---------------------------------------------------------------------
  // Responses

  const NegativeResponseSid: byte := 0x7F

  /** The description of a negative response code: its ODX short name, or
      `Unknown NRC (0xNN)`. */
  function NrcDescription(table: map<int, string>, nrc: int): (r: string)
    ensures nrc in table ==> r == table[nrc]
    ensures nrc !in table ==> r == "Unknown NRC (0x" + Hex2(nrc) + ")"
  {
    if nrc in table then table[nrc] else "Unknown NRC (0x" + Hex2(nrc) + ")"
  }

  /** For a one-byte code missing from the table, the two digits between
      `Unknown NRC (0x` and `)` read back as that code. */
  lemma UnknownNrcReadsBack(table: map<int, string>, nrc: byte)
    requires nrc !in table
    ensures var r := NrcDescription(table, nrc);
      && |r| == 18 && r[..15] == "Unknown NRC (0x" && r[17] == ')'
      && FromHex(r[15..17]) == Some([nrc])
  {
    var r := NrcDescription(table, nrc);
    Hex2ReadsBack(nrc);
    assert r[15..17] == Hex2(nrc);
  }

  /** The service name reported for a negative response ODX cannot decode. */
  function UnknownServiceName(request: seq<byte>): string {
    if request != [] then "Unknown Service (Req SID: 0x" + Hex2(request[0]) + ")" else "Unknown"
  }

  /** The code byte of a raw negative response `7F <sid> <nrc>`, or 0xFF
      when the response is too short to hold one. */
  function RawNrc(response: seq<byte>): (r: int)
    ensures 0 <= r <= 0xFF
    ensures |response| > 2 ==> r == response[2]
  {
    if |response| > 2 then response[2] else 0xFF
  }

  /** A response ODX could not decode. */
  function ClassifyUndecoded(response: seq<byte>, request: seq<byte>, table: map<int, string>): (r: Outcome)
    ensures response == [] <==> r == Failed(EmptyResponse)
    ensures r.Negative? <==> response != [] && response[0] == NegativeResponseSid
    ensures r.Negative? ==>
      && r.nrc == (if |response| > 2 then response[2] as int else 0xFF)
      && r.description == NrcDescription(table, r.nrc)
      && r.service == UnknownServiceName(request)
    ensures response != [] && response[0] != NegativeResponseSid ==> r == Failed(UndecodablePositive(response[0]))
    ensures !r.Positive?
  {
    if response == [] then Failed(EmptyResponse)
    else if response[0] == NegativeResponseSid then
      var nrc := RawNrc(response);
      Negative(UnknownServiceName(request), nrc, NrcDescription(table, nrc))
    else Failed(UndecodablePositive(response[0]))
  }

  /** A response ODX decoded. A negative one takes its code from the
      `ResponseCode` parameter, else from the raw bytes; a code that is not
      an integer makes the worker's message formatting raise. */
  function ClassifyDecoded(service: Option<string>, positive: bool, params: map<string, ParamValue>,
                           response: seq<byte>, table: map<int, string>): (r: Outcome)
    ensures positive <==> r.Positive?
    ensures r.Positive? ==> r.params == params
    ensures r.Positive? || r.Negative? ==> r.service == (if service.Some? then service.value else "Unknown")
    ensures !positive && "ResponseCode" in params ==>
      (params["ResponseCode"].IntValue? <==> r.Negative?)
      && (r.Negative? ==> r.nrc == params["ResponseCode"].n)
    ensures !positive && "ResponseCode" !in params ==> r.Negative? && r.nrc == RawNrc(response)
    ensures r.Negative? ==> r.description == NrcDescription(table, r.nrc)
    ensures r.Failed? ==> r.error == NrcNotNumeric
  {
    var name := if service.Some? then service.value else "Unknown";
    if positive then Positive(name, params)
    else
      var code := if "ResponseCode" in params then params["ResponseCode"] else IntValue(RawNrc(response));
      match code
      case IntValue(n) => Negative(name, n, NrcDescription(table, n))
      case OtherValue(_) => Failed(NrcNotNumeric)
  }

  // ---------------------------------------------------------------------
  // The worker

  /** What the worker finds in the main window for its network. */
  datatype Context = Context(networkKnown: bool, ecu: Option<Ecu>, busPresent: bool)

  /** `service.encode_request(**params)`: None when it raises. */
  type Encoder = (Service, map<string, int>) -> Option<seq<byte>>
  /** ISO-TP send, then receive with a 5 s timeout: None when nothing came. */
  type Exchange = (nat, nat, seq<byte>) -> Option<seq<byte>>
  /** `ecu.decode(raw_response)` */
  type ResponseDecoder = seq<byte> -> DecodeResult

  /** The checks and the preparation up to the encoded request: the ECU,
      the service, the request bytes and the two identifiers. */
  datatype Prepared = Prepared(ecu: Ecu, service: Service, request: seq<byte>, txId: nat, rxId: nat)

  function Prepare(details: Details, ctx: Context, encode: Encoder): (r: Result<Prepared>)
    ensures !ctx.networkKnown ==> r == Err(InvalidNetwork)
    ensures ctx.networkKnown && ctx.ecu.None? ==> r == Err(NoValidEcu)
    ensures ctx.networkKnown && ctx.ecu.Some? && !ctx.busPresent ==> r == Err(NotConnectedBus)
    ensures r.Ok? ==>
      && r.value.request != []
      && ctx.ecu == Some(r.value.ecu)
      && FindService(r.value.ecu.services, details.kind) == Some(r.value.service)
      && MapParams(details.kind, details.fields, r.value.service).Ok?
      && encode(r.value.service, MapParams(details.kind, details.fields, r.value.service).value) == Some(r.value.request)
      && (Some(r.value.txId), Some(r.value.rxId)) == ResolveAddressing(r.value.ecu)
    ensures r != Err(NoAddressing)
  {
    if !ctx.networkKnown then Err(InvalidNetwork)
    else if ctx.ecu.None? then Err(NoValidEcu)
    else if !ctx.busPresent then Err(NotConnectedBus)
    else
      var ecu := ctx.ecu.value;
      var (tx, rx) := ResolveAddressing(ecu);
      if tx.None? || rx.None? then Err(NoAddressing)
      else
        match FindService(ecu.services, details.kind)
        case None => Err(UnknownService(details.kind))
        case Some(service) =>
          match MapParams(details.kind, details.fields, service)
          case Err(e) => Err(e)
          case Ok(params) =>
            match encode(service, params)
            case None => Err(EncodeRaised)
            case Some(request) =>
              if request == [] then Err(EmptyEncoding(service.shortName))
              else Ok(Prepared(ecu, service, request, tx.value, rx.value))
  }

  /** `DiagnosticWorker.run`: the result it emits with `finished`. */
  function Run(details: Details, ctx: Context, encode: Encoder, exchange: Exchange, decode: ResponseDecoder): (r: DiagResult)
    ensures r.success <==> r.outcome.Positive?
    ensures r.outcome != Failed(NoAddressing)
  {
    match Prepare(details, ctx, encode)
    case Err(e) => DiagResult(false, Failed(e), [], Some([]))
    case Ok(p) =>
      match exchange(p.txId, p.rxId, p.request)
      case None => DiagResult(false, Failed(Timeout), p.request, None)
      case Some(response) =>
        var outcome :=
          match decode(response)
          case DecodeFails => Failed(DecodeRaised)
          case Undecoded => ClassifyUndecoded(response, p.request, p.ecu.negativeResponses)
          case DecodedMessage(service, positive, params) =>
            ClassifyDecoded(service, positive, params, response, p.ecu.negativeResponses);
        DiagResult(outcome.Positive?, outcome, p.request, Some(response))
  }

  /** Every result carries the bytes exchanged so far: nothing before the
      request is encoded, the request alone after a timeout, and both the
      request and the exchanged response once one arrived. */
  lemma RawBytesCarried(details: Details, ctx: Context, encode: Encoder, exchange: Exchange, decode: ResponseDecoder)
    ensures var r := Run(details, ctx, encode, exchange, decode);
      match Prepare(details, ctx, encode)
      case Err(e) => r == DiagResult(false, Failed(e), [], Some([]))
      case Ok(p) =>
        && r.rawRequest == p.request && r.rawRequest != []
        && r.rawResponse == exchange(p.txId, p.rxId, p.request)
        && (r.rawResponse.None? <==> r.outcome == Failed(Timeout))
  {
    var r := Run(details, ctx, encode, exchange, decode);
    match Prepare(details, ctx, encode)
    case Err(e) =>
    case Ok(p) =>
      match exchange(p.txId, p.rxId, p.request)
      case None =>
      case Some(response) =>
        match decode(response)
        case DecodeFails =>
        case Undecoded =>
        case DecodedMessage(service, positive, params) =>
          assert r.outcome == ClassifyDecoded(service, positive, params, response, p.ecu.negativeResponses);
  }

  /** Once a response arrives, the outcome is the classification of what
      ODX made of it; in particular a decoded positive response is reported
      as a success carrying the decoded parameters. */
  lemma RunClassifies(details: Details, ctx: Context, encode: Encoder, exchange: Exchange, decode: ResponseDecoder)
    requires Prepare(details, ctx, encode).Ok?
    requires var p := Prepare(details, ctx, encode).value;
      exchange(p.txId, p.rxId, p.request).Some?
    ensures var p := Prepare(details, ctx, encode).value;
      var response := exchange(p.txId, p.rxId, p.request).value;
      var r := Run(details, ctx, encode, exchange, decode);
      && (decode(response).DecodeFails? ==> r.outcome == Failed(DecodeRaised))
      && (decode(response).Undecoded? ==>
            r.outcome == ClassifyUndecoded(response, p.request, p.ecu.negativeResponses))
      && (decode(response).DecodedMessage? ==>
            r.outcome == ClassifyDecoded(decode(response).service, decode(response).positive,
                                         decode(response).params, response, p.ecu.negativeResponses))
      && (decode(response).DecodedMessage? && decode(response).positive ==>
            r.success && r.outcome.params == decode(response).params)
  {
  }

  /** A response that starts with 0x7F and that ODX cannot decode is
      reported as negative, with its code from byte 2 or 0xFF. */
  lemma UndecodedNegative(details: Details, ctx: Context, encode: Encoder, exchange: Exchange, decode: ResponseDecoder)
    requires Prepare(details, ctx, encode).Ok?
    requires var p := Prepare(details, ctx, encode).value;
      && exchange(p.txId, p.rxId, p.request).Some?
      && var response := exchange(p.txId, p.rxId, p.request).value;
      && response != [] && response[0] == NegativeResponseSid && decode(response) == Undecoded
    ensures var p := Prepare(details, ctx, encode).value;
      var response := exchange(p.txId, p.rxId, p.request).value;
      var r := Run(details, ctx, encode, exchange, decode);
      && !r.success
      && r.outcome == Negative(UnknownServiceName(p.request), RawNrc(response),
                               NrcDescription(p.ecu.negativeResponses, RawNrc(response)))
  {
  }

  /** A request type that is neither a service name nor an alias of one
      fails before anything is encoded or sent. */
  lemma UnknownServiceFails(details: Details, ctx: Context, encode: Encoder, exchange: Exchange, decode: ResponseDecoder)
    requires ctx.networkKnown && ctx.ecu.Some? && ctx.busPresent
    requires FindService(ctx.ecu.value.services, details.kind).None?
    ensures Run(details, ctx, encode, exchange, decode) ==
      DiagResult(false, Failed(UnknownService(details.kind)), [], Some([]))
  {
  }
}
