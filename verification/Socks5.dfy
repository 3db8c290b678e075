/**
 * SOCKS5 negotiation (RFC 1928, RFC 1929): the codecs, the machine that reads
 * several replies out of one growing buffer, and the driver that feeds it.
 */
module Socks5 {
  import opened Bytes
  import opened ProxyErrors

  const VERSION: byte := 5
  const AUTH_VERSION: byte := 1
  const ATYP_IPV4: byte := 1
  const ATYP_DOMAIN: byte := 3
  const ATYP_IPV6: byte := 4
  const METHOD_NONE: byte := 0
  const METHOD_USERPASS: byte := 2
  const METHOD_UNACCEPTABLE: byte := 0xff

  datatype Decoded<+T> = Incomplete | Complete(value: T, consumed: nat) | Invalid(error: ProxyError)

  // ------------------------------------------------------------ addresses

  datatype Target =
    | V4(octets: seq<byte>, port: nat)
    | V6(octets: seq<byte>, port: nat)
    | Domain(host: seq<byte>, port: nat)

  /** UTF-8 validity of a host name is a library's verdict, taken as given. */
  type Utf8 = seq<byte> -> bool

  function Lower(octet: byte): (lower: byte)
    ensures lower != octet <==> 'A' as int <= octet <= 'Z' as int
    ensures lower != octet ==> lower - octet == 'a' as int - 'A' as int
  {
    if 65 <= octet <= 90 then octet + 32 else octet
  }

  function Lowered(name: seq<byte>): (lower: seq<byte>)
    ensures |lower| == |name|
  {
    seq(|name|, i requires 0 <= i < |name| => Lower(name[i]))
  }

  /** `DomainName::new` on the octets of a name. */
  function HostName(utf8: Utf8, name: seq<byte>): Option<seq<byte>> {
    if !utf8(name) || name == [] || |name| > 255 || 0 in name then None else Some(Lowered(name))
  }

  ghost predicate IsTarget(utf8: Utf8, target: Target) {
    && target.port < 0x1_0000
    && match target
       case V4(octets, _) => |octets| == 4
       case V6(octets, _) => |octets| == 16
       case Domain(host, _) => HostName(utf8, host) == Some(host)
  }

  /** `ATYP || ADDR || PORT`. */
  function EncodeAddress(target: Target): seq<byte>
    requires target.port < 0x1_0000
  {
    (match target
     case V4(octets, _) => [ATYP_IPV4] + octets
     case V6(octets, _) => [ATYP_IPV6] + octets
     case Domain(host, _) => [ATYP_DOMAIN, |host| % 256] + host)
    + PutU16(target.port)
  }

  /** Where the address body starts and ends, once its type and length are in. */
  function BodyBounds(bytes: seq<byte>): Decoded<(nat, nat)> {
    if bytes == [] then Incomplete
    else if bytes[0] == ATYP_IPV4 then Complete((1, 5), 0)
    else if bytes[0] == ATYP_IPV6 then Complete((1, 17), 0)
    else if bytes[0] != ATYP_DOMAIN then Invalid(Address)
    else if |bytes| < 2 then Incomplete
    else Complete((2, 2 + (bytes[1] as int)), 0)
  }

  function DecodeAddress(utf8: Utf8, bytes: seq<byte>): Decoded<Target> {
    match BodyBounds(bytes)
    case Incomplete => Incomplete
    case Invalid(error) => Invalid(error)
    case Complete((start, end), _) =>
      if |bytes| < end + 2 then Incomplete
      else
        var body := bytes[start..end];
        var port := GetU16(bytes[end..]);
        if bytes[0] == ATYP_IPV4 then Complete(V4(body, port), end + 2)
        else if bytes[0] == ATYP_IPV6 then Complete(V6(body, port), end + 2)
        else
          match HostName(utf8, body)
          case None => Invalid(Address)
          case Some(host) => Complete(Domain(host, port), end + 2)
  }

  lemma {:induction false} AddressRoundTrip(utf8: Utf8, target: Target, behind: seq<byte>)
    requires IsTarget(utf8, target)
    ensures DecodeAddress(utf8, EncodeAddress(target) + behind) == Complete(target, |EncodeAddress(target)|)
  {
    var bytes := EncodeAddress(target) + behind;
    var (start, end) := BodyBounds(bytes).value;
    assert bytes[start..end] == if target.Domain? then target.host else target.octets;
    assert bytes[end..][..2] == PutU16(target.port);
  }

  /** A name arrives folded to lower case exactly when it is one: not empty, at
      most 255 octets as its length octet has it, UTF-8 and free of NUL. */
  lemma {:induction false} NameArrives(utf8: Utf8, name: seq<byte>, port: nat, behind: seq<byte>)
    requires |name| <= 255 && port < 0x1_0000
    ensures DecodeAddress(utf8, [ATYP_DOMAIN, |name|] + name + PutU16(port) + behind)
         == if name != [] && utf8(name) && 0 !in name then Complete(Domain(Lowered(name), port), |name| + 4)
            else Invalid(Address)
  {
    var bytes := [ATYP_DOMAIN, |name|] + name + PutU16(port) + behind;
    assert bytes[2..2 + |name|] == name;
    assert bytes[2 + |name|..][..2] == PutU16(port);
  }

  /** A verdict on an address is not changed by what arrives behind it, and a
      pending one has not reached the longest address. */
  lemma {:induction false} AddressStable(utf8: Utf8, bytes: seq<byte>, more: seq<byte>)
    ensures !DecodeAddress(utf8, bytes).Incomplete? ==>
              DecodeAddress(utf8, bytes + more) == DecodeAddress(utf8, bytes)
    ensures DecodeAddress(utf8, bytes).Complete? ==> 0 < DecodeAddress(utf8, bytes).consumed <= |bytes|
    ensures DecodeAddress(utf8, bytes).Incomplete? ==> |bytes| < 1 + 1 + 255 + 2
  {
    if bytes != [] && BodyBounds(bytes).Complete? {
      var (start, end) := BodyBounds(bytes).value;
      if end + 2 <= |bytes| {
        assert (bytes + more)[start..end] == bytes[start..end];
        assert (bytes + more)[end..][..2] == bytes[end..][..2];
      }
    }
  }

  // ------------------------------------------------------------ messages

  datatype Credentials = Credentials(username: seq<byte>, password: seq<byte>)

  /** What one negotiation is for. */
  datatype Request = Request(credentials: Option<Credentials>, command: byte, target: Target, utf8: Utf8)

  ghost predicate Wanted(request: Request) {
    && IsTarget(request.utf8, request.target)
    && (request.credentials.Some? ==>
          && 1 <= |request.credentials.value.username| <= 255
          && 1 <= |request.credentials.value.password| <= 255)
  }

  function Greeting(request: Request): seq<byte> {
    if request.credentials.Some? then [VERSION, 2, METHOD_NONE, METHOD_USERPASS] else [VERSION, 1, METHOD_NONE]
  }

  function EncodeCredentials(credentials: Credentials): seq<byte> {
    [AUTH_VERSION, |credentials.username| % 256] + credentials.username
    + [|credentials.password| % 256] + credentials.password
  }

  function EncodeRequest(request: Request): seq<byte>
    requires Wanted(request)
  {
    [VERSION, request.command, 0] + EncodeAddress(request.target)
  }

  function DecodeMethodSelection(bytes: seq<byte>): Decoded<byte> {
    if |bytes| < 2 then Incomplete
    else if bytes[0] != VERSION then Invalid(Version(bytes[0]))
    else if bytes[1] == METHOD_UNACCEPTABLE then Invalid(NoAcceptableMethod)
    else if bytes[1] == METHOD_NONE || bytes[1] == METHOD_USERPASS then Complete(bytes[1], 2)
    else Invalid(UnexpectedMethod(bytes[1]))
  }

  function DecodeReply(utf8: Utf8, bytes: seq<byte>): Decoded<Target> {
    if |bytes| < 3 then Incomplete
    else if bytes[0] != VERSION then Invalid(Version(bytes[0]))
    else if bytes[1] != 0 then Invalid(Refusal(bytes[1]))
    else
      match DecodeAddress(utf8, bytes[3..])
      case Incomplete => Incomplete
      case Invalid(error) => Invalid(error)
      case Complete(bound, consumed) => Complete(bound, 3 + consumed)
  }

  lemma {:induction false} ReplyStable(utf8: Utf8, bytes: seq<byte>, more: seq<byte>)
    ensures !DecodeReply(utf8, bytes).Incomplete? ==> DecodeReply(utf8, bytes + more) == DecodeReply(utf8, bytes)
    ensures DecodeReply(utf8, bytes).Complete? ==> DecodeReply(utf8, bytes).consumed <= |bytes|
    ensures DecodeReply(utf8, bytes).Incomplete? ==> |bytes| < 3 + 1 + 1 + 255 + 2
  {
    if |bytes| >= 3 {
      AddressStable(utf8, bytes[3..], more);
      assert (bytes + more)[3..] == bytes[3..] + more;
    }
  }

  // ------------------------------------------------------------ one-shot reference

  datatype Phase = Selecting | Authenticating | Requesting

  datatype Outcome = Waiting | Failed(error: ProxyError) | Agreed(bound: Target, consumed: nat)

  /** Where a negotiation stands once it has seen a stream: the phase it waits
      in, how much of the stream earlier phases used, everything written since
      the greeting, and the verdict. */
  datatype Standing = Standing(phase: Phase, at: nat, sent: seq<byte>, outcome: Outcome)

  function AtReply(request: Request, stream: seq<byte>, at: nat, sent: seq<byte>): Standing
    requires at <= |stream|
  {
    match DecodeReply(request.utf8, stream[at..])
    case Incomplete => Standing(Requesting, at, sent, Waiting)
    case Invalid(error) => Standing(Requesting, at, sent, Failed(error))
    case Complete(bound, consumed) => Standing(Requesting, at, sent, Agreed(bound, at + consumed))
  }

  function AtStatus(request: Request, stream: seq<byte>, at: nat, sent: seq<byte>): Standing
    requires Wanted(request) && at <= |stream|
  {
    if |stream| < at + 2 then Standing(Authenticating, at, sent, Waiting)
    else if stream[at] != AUTH_VERSION then Standing(Authenticating, at, sent, Failed(Version(stream[at])))
    else if stream[at + 1] != 0 then Standing(Authenticating, at, sent, Failed(AuthFailed))
    else AtReply(request, stream, at + 2, sent + EncodeRequest(request))
  }

  /** The whole stream read at once (RFC 1928 sections 3 and 6, RFC 1929). */
  function Stand(request: Request, stream: seq<byte>): Standing
    requires Wanted(request)
  {
    match DecodeMethodSelection(stream)
    case Incomplete => Standing(Selecting, 0, [], Waiting)
    case Invalid(error) => Standing(Selecting, 0, [], Failed(error))
    case Complete(chosen, used) =>
      if chosen == METHOD_USERPASS then
        match request.credentials
        case None => Standing(Selecting, used, [], Failed(UnexpectedMethod(METHOD_USERPASS)))
        case Some(credentials) => AtStatus(request, stream, used, EncodeCredentials(credentials))
      else AtReply(request, stream, used, EncodeRequest(request))
  }

  /** Reading on from a phase already reached. */
  function StandFrom(request: Request, stream: seq<byte>, phase: Phase, at: nat, sent: seq<byte>): Standing
    requires Wanted(request) && at <= |stream|
  {
    match phase
    case Selecting => Stand(request, stream)
    case Authenticating => AtStatus(request, stream, at, sent)
    case Requesting => AtReply(request, stream, at, sent)
  }

  lemma {:induction false} StandWithin(request: Request, seen: seq<byte>)
    requires Wanted(request)
    ensures Stand(request, seen).at <= |seen|
    ensures Stand(request, seen).outcome.Agreed? ==> Stand(request, seen).outcome.consumed <= |seen|
  {
    var now := Stand(request, seen);
    if now.phase.Requesting? {
      ReplyStable(request.utf8, seen[now.at..], []);
    }
  }

  /** `whole` is where more of the stream takes `now`. */
  ghost predicate Continues(request: Request, stream: seq<byte>, now: Standing, whole: Standing)
    requires Wanted(request) && now.at <= |stream|
  {
    whole == if now.outcome.Waiting? then StandFrom(request, stream, now.phase, now.at, now.sent) else now
  }

  lemma {:induction false} ReplyOn(request: Request, seen: seq<byte>, more: seq<byte>, at: nat, sent: seq<byte>)
    requires Wanted(request) && at <= |seen|
    ensures Continues(request, seen + more, AtReply(request, seen, at, sent), AtReply(request, seen + more, at, sent))
  {
    assert (seen + more)[at..] == seen[at..] + more;
    ReplyStable(request.utf8, seen[at..], more);
  }

  lemma {:induction false} StatusOn(request: Request, seen: seq<byte>, more: seq<byte>, at: nat, sent: seq<byte>)
    requires Wanted(request) && at <= |seen|
    ensures Continues(request, seen + more, AtStatus(request, seen, at, sent), AtStatus(request, seen + more, at, sent))
  {
    if |seen| >= at + 2 {
      ReplyOn(request, seen, more, at + 2, sent + EncodeRequest(request));
    }
  }

  /** A phase reached on part of a stream is reached on all of it, and reading on
      from there is reading from the start; a verdict once given stays. */
  lemma {:induction false} StandOn(request: Request, seen: seq<byte>, more: seq<byte>)
    requires Wanted(request)
    ensures var now := Stand(request, seen);
            && now.at <= |seen|
            && Continues(request, seen + more, now, Stand(request, seen + more))
            && (now.outcome.Agreed? ==> now.outcome.consumed <= |seen|)
  {
    StandWithin(request, seen);
    match DecodeMethodSelection(seen)
    case Incomplete =>
    case Invalid(_) =>
    case Complete(chosen, used) =>
      ReplyOn(request, seen, more, used, EncodeRequest(request));
      if request.credentials.Some? {
        StatusOn(request, seen, more, used, EncodeCredentials(request.credentials.value));
      }
  }

  // ------------------------------------------------------------ the proxy's side

  /** The methods a greeting offers, as a server reads it (RFC 1928 section 3). */
  function MethodsOffered(greeting: seq<byte>): Option<seq<byte>> {
    if |greeting| >= 2 && greeting[0] == VERSION && |greeting| == 2 + (greeting[1] as int) then Some(greeting[2..]) else None
  }

  /** The greeting offers no authentication, and a password exactly when there is one. */
  lemma {:induction false} GreetingOffers(request: Request)
    ensures MethodsOffered(Greeting(request)).Some?
    ensures forall offer ::
              offer in MethodsOffered(Greeting(request)).value
              <==> offer == METHOD_NONE || (offer == METHOD_USERPASS && request.credentials.Some?)
  {
    var methods := MethodsOffered(Greeting(request)).value;
    assert methods[0] == METHOD_NONE;
    assert request.credentials.Some? ==> methods[1] == METHOD_USERPASS;
  }

  /** The credentials a server reads (RFC 1929 section 2). */
  function CredentialsRead(bytes: seq<byte>): Option<Credentials> {
    if |bytes| < 2 || bytes[0] != AUTH_VERSION || |bytes| < 3 + (bytes[1] as int) then None
    else
      var middle := 2 + (bytes[1] as int);
      if |bytes| != middle + 1 + (bytes[middle] as int) then None
      else Some(Credentials(bytes[2..middle], bytes[middle + 1..]))
  }

  lemma {:induction false} CredentialsRoundTrip(credentials: Credentials)
    requires 1 <= |credentials.username| <= 255 && 1 <= |credentials.password| <= 255
    ensures CredentialsRead(EncodeCredentials(credentials)) == Some(credentials)
  {
    var bytes := EncodeCredentials(credentials);
    var middle := 2 + |credentials.username|;
    assert bytes[2..middle] == credentials.username;
    assert bytes[middle + 1..] == credentials.password;
  }

  /** What a proxy decides: the method, the status of the login, the reply. */
  datatype Server = Server(choice: byte, status: byte, reply: byte, bound: Target)

  /** All it writes, when every step is taken. */
  function Speech(proxy: Server): seq<byte>
    requires proxy.bound.port < 0x1_0000
  {
    [VERSION, proxy.choice]
    + (if proxy.choice == METHOD_USERPASS then [AUTH_VERSION, proxy.status] else [])
    + [VERSION, proxy.reply, 0] + EncodeAddress(proxy.bound)
  }

  /** What the client makes of those decisions. */
  ghost function Verdict(request: Request, proxy: Server): Outcome
    requires proxy.bound.port < 0x1_0000 && MethodsOffered(Greeting(request)).Some?
  {
    if proxy.choice == METHOD_UNACCEPTABLE then Failed(NoAcceptableMethod)
    else if proxy.choice !in MethodsOffered(Greeting(request)).value then Failed(UnexpectedMethod(proxy.choice))
    else if proxy.choice == METHOD_USERPASS && proxy.status != 0 then Failed(AuthFailed)
    else if proxy.reply != 0 then Failed(Refusal(proxy.reply))
    else Agreed(proxy.bound, |Speech(proxy)|)
  }

  /** A reply is read for its code first, and its address when that is success. */
  lemma {:induction false} ReplyArrives(utf8: Utf8, reply: byte, bound: Target, behind: seq<byte>)
    requires IsTarget(utf8, bound)
    ensures DecodeReply(utf8, [VERSION, reply, 0] + (EncodeAddress(bound) + behind))
         == if reply == 0 then Complete(bound, 3 + |EncodeAddress(bound)|) else Invalid(Refusal(reply))
  {
    var bytes := [VERSION, reply, 0] + (EncodeAddress(bound) + behind);
    assert bytes[3..] == EncodeAddress(bound) + behind;
    AddressRoundTrip(utf8, bound, behind);
  }

  /** Against a proxy that follows the protocol the client reaches the verdict its
      decisions call for, writes its credentials exactly when asked for and the
      request exactly when it is let through, and leaves what follows alone. */
  lemma {:induction false} MeetsProxy(request: Request, proxy: Server, behind: seq<byte>)
    requires Wanted(request) && IsTarget(request.utf8, proxy.bound)
    ensures MethodsOffered(Greeting(request)).Some?
    ensures var stand := Stand(request, Speech(proxy) + behind);
      && stand.outcome == Verdict(request, proxy)
      && stand.sent == (if stand.phase.Selecting? then []
                        else (if proxy.choice == METHOD_USERPASS then EncodeCredentials(request.credentials.value) else [])
                             + (if stand.outcome == Failed(AuthFailed) then [] else EncodeRequest(request)))
  {
    GreetingOffers(request);
    var stream := Speech(proxy) + behind;
    var at := if proxy.choice == METHOD_USERPASS then 4 else 2;
    assert stream[at..] == [VERSION, proxy.reply, 0] + (EncodeAddress(proxy.bound) + behind);
    ReplyArrives(request.utf8, proxy.reply, proxy.bound, behind);
  }

  /** And it waits for every octet of that. */
  lemma {:induction false} WaitsForAll(request: Request, proxy: Server, n: nat)
    requires Wanted(request) && IsTarget(request.utf8, proxy.bound)
    requires MethodsOffered(Greeting(request)).Some? && Verdict(request, proxy).Agreed? && n < |Speech(proxy)|
    ensures Stand(request, Speech(proxy)[..n]).outcome.Waiting?
  {
    var speech := Speech(proxy);
    assert speech[..n] + speech[n..] == speech && speech + [] == speech;
    MeetsProxy(request, proxy, []);
    StandOn(request, speech[..n], speech[n..]);
  }

  /** A negotiation still waiting holds fewer than 266 octets, so the driver's
      16 KiB ceiling is out of reach. */
  lemma {:induction false} WaitingIsShort(request: Request, stream: seq<byte>)
    requires Wanted(request) && Stand(request, stream).outcome.Waiting?
    ensures |stream| < 266
  {
    var now := Stand(request, stream);
    if now.phase.Requesting? {
      ReplyStable(request.utf8, stream[now.at..], []);
    }
  }

  // ------------------------------------------------------------ the machine

  /** What `advance` answers. */
  datatype Progress = Pending | Done(bound: Target, consumed: nat) | Refused(error: ProxyError)

  class Negotiate {
    const request: Request
    var phase: Phase
    var at: nat

    /** The machine stands where everything it was shown puts it. */
    ghost predicate Stands(seen: seq<byte>)
      reads this
    {
      && Wanted(request)
      && Stand(request, seen).outcome.Waiting?
      && phase == Stand(request, seen).phase
      && at == Stand(request, seen).at
    }

    constructor (request: Request)
      requires Wanted(request)
      ensures this.request == request && Stands([]) && phase.Selecting? && at == 0
    {
      this.request := request;
      phase := Selecting;
      at := 0;
    }

    /** Reading on from here, with `sent` written so far, is reading it all. */
    ghost predicate Resumes(input: seq<byte>, sent: seq<byte>)
      reads this
    {
      && Wanted(request) && at <= |input|
      && (phase.Selecting? ==> at == 0 && sent == [])
      && StandFrom(request, input, phase, at, sent) == Stand(request, input)
    }

    /** An answer is the one-shot verdict, with everything it calls for written. */
    ghost predicate Answers(input: seq<byte>, sent: seq<byte>, progress: Progress)
      requires Wanted(request)
      reads this
    {
      && Stand(request, input).sent == sent
      && match progress
         case Pending => Stands(input)
         case Done(bound, consumed) => Stand(request, input).outcome == Agreed(bound, consumed)
         case Refused(error) => Stand(request, input).outcome == Failed(error)
    }

    method Select(input: seq<byte>) returns (out: seq<byte>, stop: Option<Progress>)
      requires phase.Selecting? && Resumes(input, [])
      modifies this
      ensures stop.None? ==> !phase.Selecting? && Resumes(input, out)
      ensures stop.Some? ==> Answers(input, out, stop.value)
    {
      match DecodeMethodSelection(input[at..])
      case Invalid(error) =>
        return [], Some(Refused(error));
      case Incomplete =>
        return [], Some(Pending);
      case Complete(chosen, consumed) =>
        at := at + consumed;
        if chosen == METHOD_USERPASS {
          if request.credentials.None? {
            return [], Some(Refused(UnexpectedMethod(METHOD_USERPASS)));
          }
          phase := Authenticating;
          return EncodeCredentials(request.credentials.value), None;
        }
        phase := Requesting;
        return EncodeRequest(request), None;
    }

    method Authenticate(input: seq<byte>, ghost sent: seq<byte>) returns (out: seq<byte>, stop: Option<Progress>)
      requires phase.Authenticating? && Resumes(input, sent)
      modifies this
      ensures stop.None? ==> phase.Requesting? && Resumes(input, sent + out)
      ensures stop.Some? ==> Answers(input, sent + out, stop.value)
    {
      var rest := input[at..];
      assert sent + [] == sent;
      if |rest| < 2 {
        return [], Some(Pending);
      }
      if rest[0] != AUTH_VERSION {
        return [], Some(Refused(Version(rest[0])));
      }
      if rest[1] != 0 {
        return [], Some(Refused(AuthFailed));
      }
      at := at + 2;
      phase := Requesting;
      return EncodeRequest(request), None;
    }

    method AwaitReply(input: seq<byte>, ghost sent: seq<byte>) returns (progress: Progress)
      requires phase.Requesting? && Resumes(input, sent)
      ensures Answers(input, sent, progress)
    {
      match DecodeReply(request.utf8, input[at..])
      case Invalid(error) =>
        return Refused(error);
      case Incomplete =>
        return Pending;
      case Complete(bound, consumed) =>
        return Done(bound, at + consumed);
    }

    function Rank(): nat
      reads this
    {
      if phase.Selecting? then 2 else if phase.Authenticating? then 1 else 0
    }

    /** One phase: it ends the call, or the next phase follows. */
    method Turn(input: seq<byte>, ghost sent: seq<byte>) returns (more: seq<byte>, stop: Option<Progress>)
      requires !phase.Requesting? && Resumes(input, sent)
      modifies this
      ensures stop.None? ==> Rank() < old(Rank()) && Resumes(input, sent + more)
      ensures stop.Some? ==> Answers(input, sent + more, stop.value)
    {
      if phase.Selecting? {
        assert sent == [];
        more, stop := Select(input);
        assert [] + more == more;
      } else {
        more, stop := Authenticate(input, sent);
      }
    }

    /** One `advance` on a buffer that extends what was shown before: it writes
        what the new octets call for, exactly once, and gives the one-shot
        verdict. Shown nothing at all it writes the greeting, whenever the output
        it is to append to is empty. */
    method Advance(input: seq<byte>, out: seq<byte>, ghost seen: seq<byte>) returns (more: seq<byte>, progress: Progress)
      requires Stands(seen) && seen <= input
      modifies this
      ensures input == [] ==> more == (if out == [] then Greeting(request) else []) && progress == Pending && Stands(input)
      ensures input != [] ==> Answers(input, Stand(request, seen).sent + more, progress)
    {
      ghost var before := Stand(request, seen).sent;
      StandOn(request, seen, input[|seen|..]);
      assert seen + input[|seen|..] == input;
      if phase.Selecting? && at == 0 && input == [] && out == [] {
        return Greeting(request), Pending;
      }
      more, progress := Negotiated(input, before);
    }

    method Negotiated(input: seq<byte>, ghost before: seq<byte>) returns (out: seq<byte>, progress: Progress)
      requires Resumes(input, before)
      modifies this
      ensures Answers(input, before + out, progress)
    {
      out := [];
      assert before + [] == before;
      while !phase.Requesting?
        invariant Resumes(input, before + out)
        decreases Rank()
      {
        var more, stop := Turn(input, before + out);
        Regroup(before, out, more);
        out := out + more;
        if stop.Some? {
          return out, stop.value;
        }
      }
      progress := AwaitReply(input, before + out);
    }
  }

  // ------------------------------------------------------------ the driver

  const MAX_NEGOTIATION: nat := 16 * 1024

  datatype Result = Bound(target: Target, surplus: seq<byte>) | Proxy(error: ProxyError) | UnexpectedEof

  /** What a driver that has read `received` owes its caller, given the verdict
      on everything the peer says: a whole surplus on success, an end of file
      only when the peer's whole say settles nothing. */
  ghost predicate Owed(outcome: Outcome, said: seq<byte>, received: seq<byte>, result: Result) {
    match outcome
    case Waiting => result == UnexpectedEof && received == said
    case Failed(error) => result == Proxy(error)
    case Agreed(bound, consumed) => consumed <= |received| && result == Bound(bound, received[consumed..])
  }

  /** A verdict on the first reads is the verdict on all of them. */
  lemma {:induction false} SettledEarly(request: Request, arrivals: seq<seq<byte>>, i: nat, result: Result)
    requires Wanted(request) && i <= |arrivals|
    requires !Stand(request, Flatten(arrivals[..i])).outcome.Waiting?
    requires Owed(Stand(request, Flatten(arrivals[..i])).outcome, [], Flatten(arrivals[..i]), result)
    ensures Owed(Stand(request, Flatten(arrivals)).outcome, Flatten(arrivals), Flatten(arrivals[..i]), result)
  {
    FlattenConcat(arrivals[..i], arrivals[i..]);
    assert arrivals[..i] + arrivals[i..] == arrivals;
    StandOn(request, Flatten(arrivals[..i]), Flatten(arrivals[i..]));
  }

  lemma {:induction false} FirstReads(arrivals: seq<seq<byte>>, i: nat)
    requires i <= |arrivals|
    ensures Flatten(arrivals[..i]) <= Flatten(arrivals)
  {
    FlattenConcat(arrivals[..i], arrivals[i..]);
    assert arrivals[..i] + arrivals[i..] == arrivals;
  }

  lemma {:induction false} OneMoreRead(arrivals: seq<seq<byte>>, i: nat)
    requires i < |arrivals|
    ensures Flatten(arrivals[..i + 1]) == Flatten(arrivals[..i]) + arrivals[i]
  {
    FlattenAppend(arrivals[..i], arrivals[i]);
    assert arrivals[..i] + [arrivals[i]] == arrivals[..i + 1];
  }

  /** One round of the driver: show the machine everything, and stop at a verdict.
      What a refusing call wrote is dropped with it. */
  method Round(machine: Negotiate, received: seq<byte>, ghost seen: seq<byte>, ghost sent: seq<byte>)
    returns (sending: seq<byte>, result: Option<Result>)
    requires machine.Stands(seen) && seen <= received
    requires if received == [] then sent == [] else sent == Greeting(machine.request) + Stand(machine.request, seen).sent
    modifies machine
    ensures result.None? ==> machine.Stands(received)
    ensures if result.Some? && result.value.Proxy? then sending == [] && received != []
            else sent + sending == Greeting(machine.request) + Stand(machine.request, received).sent
    ensures result.Some? ==> !Stand(machine.request, received).outcome.Waiting?
    ensures result.Some? ==> Owed(Stand(machine.request, received).outcome, [], received, result.value)
  {
    var progress;
    sending, progress := machine.Advance(received, [], seen);
    StandOn(machine.request, received, []);
    Regroup(Greeting(machine.request), Stand(machine.request, seen).sent, sending);
    match progress
    case Refused(error) =>
      return [], Some(Proxy(error));
    case Done(bound, consumed) =>
      return sending, Some(Bound(bound, received[consumed..]));
    case Pending =>
      WaitingIsShort(machine.request, received);
      if |received| >= MAX_NEGOTIATION {
        return [], Some(Proxy(Header));
      }
      return sending, None;
  }

  /** `negotiate` over a peer whose octets come in any non-empty reads and then
      end. The verdict is the one-shot verdict on everything the peer says; what
      was read past the reply is handed back whole; the ceiling is never the cause
      of a refusal. The greeting and then each later message is written once and
      in order; but when the proxy refuses, what the last read called for is not
      written any more. */
  method Negotiation(request: Request, arrivals: seq<seq<byte>>)
    returns (result: Result, sent: seq<byte>, received: seq<byte>, taken: nat)
    requires Wanted(request)
    requires forall i :: 0 <= i < |arrivals| ==> arrivals[i] != []
    ensures taken <= |arrivals| && received == Flatten(arrivals[..taken]) <= Flatten(arrivals)
    ensures result.Proxy? ==>
              && taken > 0 && Stand(request, Flatten(arrivals[..taken - 1])).outcome.Waiting?
              && sent == Greeting(request) + Stand(request, Flatten(arrivals[..taken - 1])).sent
    ensures !result.Proxy? ==> sent == Greeting(request) + Stand(request, received).sent
    ensures Owed(Stand(request, Flatten(arrivals)).outcome, Flatten(arrivals), received, result)
  {
    var machine := new Negotiate(request);
    received, sent, taken := [], [], 0;
    ghost var seen: seq<byte> := [];
    while true
      invariant taken <= |arrivals| && received == Flatten(arrivals[..taken]) && (taken > 0 ==> received != [])
      invariant taken > 0 ==> seen == Flatten(arrivals[..taken - 1])
      invariant machine.request == request && machine.Stands(seen) && seen <= received
      invariant if received == [] then sent == [] else sent == Greeting(request) + Stand(request, seen).sent
      decreases |arrivals| - taken
    {
      var sending, verdict := Round(machine, received, seen, sent);
      FirstReads(arrivals, taken);
      sent := sent + sending;
      if verdict.Some? {
        SettledEarly(request, arrivals, taken, verdict.value);
        return verdict.value, sent, received, taken;
      }
      seen := received;
      if taken == |arrivals| {
        assert arrivals[..taken] == arrivals;
        return UnexpectedEof, sent, received, taken;
      }
      OneMoreRead(arrivals, taken);
      received := received + arrivals[taken];
      taken := taken + 1;
    }
  }

  /** A message is lost exactly when the read that called for it also carried the
      refusal: the refusal then comes in a later phase than the one the client
      was waiting in. */
  lemma {:induction false} LostExactly(request: Request, before: seq<byte>, received: seq<byte>)
    requires Wanted(request) && before <= received
    requires Stand(request, before).outcome.Waiting? && Stand(request, received).outcome.Failed?
    ensures Stand(request, received).sent != Stand(request, before).sent
            <==> Stand(request, received).phase != Stand(request, before).phase
    ensures Stand(request, before).sent <= Stand(request, received).sent
  {
    assert before + received[|before|..] == received;
    StandOn(request, before, received[|before|..]);
    var now, whole := Stand(request, before), Stand(request, received);
    assert whole == StandFrom(request, received, now.phase, now.at, now.sent);
    assert |EncodeRequest(request)| > 0;
    assert now.phase.Selecting? ==> now.sent == [];
    assert request.credentials.Some? ==> |EncodeCredentials(request.credentials.value)| > 0;
  }

  /** A choice of method and a refused request in one read: the request the choice
      called for never goes out. */
  method RequestLost(request: Request, code: byte) returns (result: Result, sent: seq<byte>)
    requires Wanted(request) && code != 0
    ensures result == Proxy(Refusal(code)) && sent == Greeting(request)
    ensures Stand(request, [VERSION, METHOD_NONE, VERSION, code, 0]).sent == EncodeRequest(request) != []
  {
    var read := [VERSION, METHOD_NONE, VERSION, code, 0];
    assert read[2..] == [VERSION, code, 0];
    assert Flatten([read]) == read;
    assert Flatten([read][..0]) == [];
    var received, taken;
    result, sent, received, taken := Negotiation(request, [read]);
    assert [read][..1] == [read];
  }

  /** Re-offering the buffer a machine just answered writes nothing further
      exactly when the buffer is not empty or the output still holds what was
      written: on an empty buffer and an emptied output the greeting is written
      again, so a driver that clears its output must not re-offer nothing. */
  method Reoffer(request: Request, input: seq<byte>, cleared: bool)
    returns (first: seq<byte>, again: seq<byte>, pending: bool)
    requires Wanted(request)
    ensures pending && first != [] ==> (again == [] <==> input != [] || !cleared)
    ensures pending && input != [] ==> again == []
    ensures input == [] ==> pending && first == Greeting(request) && again == if cleared then first else []
  {
    var machine := new Negotiate(request);
    var progress;
    first, progress := machine.Advance(input, [], []);
    pending, again := progress.Pending?, [];
    if pending {
      again, progress := machine.Advance(input, if cleared then [] else first, input);
    }
  }
}
