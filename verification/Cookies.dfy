/**
 DNS cookies (internal/resolver/cookie.go), an interoperable server cookie in the sense of section 4
 of RFC 9018. The keyed hash is a parameter `mac` from messages to 8 bytes. Times are nanoseconds
 since 1970.
 */
module Cookies {
  import opened Wrappers

  type Byte = x: int | 0 <= x < 256

  const SECOND := 1_000_000_000
  const MINUTE := 60 * SECOND
  const HOUR := 60 * MINUTE
  const UINT32 := 0x1_0000_0000

  type Uint32 = x: int | 0 <= x < UINT32

  type Hash = h: seq<Byte> | |h| == 8 witness [0, 0, 0, 0, 0, 0, 0, 0]

  type Mac = seq<Byte> -> Hash

  // ---------------------------------------------------------------- hexadecimal

  const DIGITS := "0123456789abcdef"

  function Digit(c: char): (d: Option<nat>)
    ensures d.Some? ==> d.value < 16
  {
    if '0' <= c <= '9' then Some(c as int - '0' as int)
    else if 'a' <= c <= 'f' then Some(c as int - 'a' as int + 10)
    else if 'A' <= c <= 'F' then Some(c as int - 'A' as int + 10)
    else None
  }

  function HexEncode(bytes: seq<Byte>): (s: string)
    ensures |s| == 2 * |bytes|
  {
    if bytes == [] then "" else [DIGITS[bytes[0] / 16], DIGITS[bytes[0] % 16]] + HexEncode(bytes[1..])
  }

  function HexDecode(s: string): (r: Option<seq<Byte>>)
    ensures r.Some? ==> |s| == 2 * |r.value|
  {
    if s == "" then Some([])
    else if |s| == 1 || Digit(s[0]).None? || Digit(s[1]).None? || HexDecode(s[2..]).None? then None
    else Some([Digit(s[0]).value * 16 + Digit(s[1]).value] + HexDecode(s[2..]).value)
  }

  lemma DigitOfDigit(d: nat)
    requires d < 16
    ensures Digit(DIGITS[d]) == Some(d)
  {
  }

  lemma DecodePair(high: char, low: char, rest: string)
    requires Digit(high).Some? && Digit(low).Some? && HexDecode(rest).Some?
    ensures HexDecode([high, low] + rest) == Some([Digit(high).value * 16 + Digit(low).value] + HexDecode(rest).value)
  {
    hide Digit;
    assert ([high, low] + rest)[2..] == rest;
  }

  lemma EncodeHead(b: Byte, rest: seq<Byte>)
    ensures HexEncode([b] + rest) == [DIGITS[b / 16], DIGITS[b % 16]] + HexEncode(rest)
  {
    assert ([b] + rest)[1..] == rest;
  }

  lemma HexHead(b: Byte, rest: seq<Byte>)
    requires HexDecode(HexEncode(rest)) == Some(rest)
    ensures HexDecode(HexEncode([b] + rest)) == Some([b] + rest)
  {
    hide HexDecode, HexEncode;
    EncodeHead(b, rest);
    DigitOfDigit(b / 16);
    DigitOfDigit(b % 16);
    hide Digit;
    DecodePair(DIGITS[b / 16], DIGITS[b % 16], HexEncode(rest));
  }

  lemma {:induction false} HexRoundTrip(bytes: seq<Byte>)
    ensures HexDecode(HexEncode(bytes)) == Some(bytes)
  {
    if bytes != [] {
      hide HexDecode, HexEncode;
      HexRoundTrip(bytes[1..]);
      HexHead(bytes[0], bytes[1..]);
      assert bytes == [bytes[0]] + bytes[1..];
    }
  }

  lemma {:induction false} HexConcat(a: seq<Byte>, b: seq<Byte>)
    ensures HexEncode(a + b) == HexEncode(a) + HexEncode(b)
  {
    if a == [] {
      assert a + b == b;
    } else {
      HexConcat(a[1..], b);
      var pair := [DIGITS[a[0] / 16], DIGITS[a[0] % 16]];
      assert (a + b)[1..] == a[1..] + b && (a + b)[0] == a[0];
      assert HexEncode(a + b) == pair + HexEncode(a[1..] + b);
      hide HexEncode;
      assert pair + (HexEncode(a[1..]) + HexEncode(b)) == (pair + HexEncode(a[1..])) + HexEncode(b);
    }
  }

  // ---------------------------------------------------------------- server cookies

  /** `raw` is what was received; the reserved bytes in it are not looked at. */
  datatype ServerCookie = ServerCookie(raw: seq<Byte>, version: Byte, timestamp: Uint32, hash: Hash)

  function BigEndian32(x: Uint32): (r: seq<Byte>)
    ensures |r| == 4
  {
    [x / 256 / 256 / 256, x / 256 / 256 % 256, x / 256 % 256, x % 256]
  }

  function Number32(b: seq<Byte>): (x: Uint32)
    requires |b| == 4
  {
    ((b[0] as int * 256 + b[1]) * 256 + b[2]) * 256 + b[3]
  }

  lemma NumberRoundTrip(x: Uint32)
    ensures Number32(BigEndian32(x)) == x
  {
  }

  /** The other direction: every four bytes are the packing of the number they stand for. */
  lemma BytesRoundTrip(b: seq<Byte>)
    requires |b| == 4
    ensures BigEndian32(Number32(b)) == b
  {
    var high := b[0] as int * 256 + b[1];
    LastByte(b[0], b[1]);
    LastByte(high, b[2]);
    LastByte(high * 256 + b[2], b[3]);
  }

  lemma LastByte(n: int, b: int)
    requires 0 <= b < 256
    ensures (n * 256 + b) / 256 == n && (n * 256 + b) % 256 == b
  {
  }

  function Header(version: Byte, timestamp: Uint32): (r: seq<Byte>)
    ensures |r| == 8
  {
    [version] + [0, 0, 0] + BigEndian32(timestamp)
  }

  function PackBytes(version: Byte, timestamp: Uint32, hash: Hash): (r: seq<Byte>)
    ensures |r| == 16
  {
    Header(version, timestamp) + hash
  }

  function UnpackBytes(buf: seq<Byte>): Option<ServerCookie> {
    if |buf| < 16 then None
    else Some(ServerCookie(buf, buf[0], Number32(buf[4..8]), buf[8..16]))
  }

  function UnpackServerCookie(input: string): Option<ServerCookie> {
    var buf := HexDecode(input);
    if buf.None? then None else UnpackBytes(buf.value)
  }

  lemma PackRoundTrip(version: Byte, timestamp: Uint32, hash: Hash)
    ensures var raw := PackBytes(version, timestamp, hash);
            UnpackServerCookie(HexEncode(raw)) == Some(ServerCookie(raw, version, timestamp, hash))
  {
    hide HexDecode, HexEncode;
    var raw := PackBytes(version, timestamp, hash);
    HexRoundTrip(raw);
    NumberRoundTrip(timestamp);
    hide BigEndian32, Number32;
    assert raw[4..8] == BigEndian32(timestamp) && raw[8..16] == hash;
  }

  /** The four bytes of an IPv4 address, also when written as an IPv6 address; otherwise all sixteen. */
  function Canonical(ip: seq<Byte>): seq<Byte> {
    if |ip| == 4 then ip
    else if |ip| == 16 && ip[..10] == [0, 0, 0, 0, 0, 0, 0, 0, 0, 0] && ip[10] == 255 && ip[11] == 255 then ip[12..]
    else if |ip| == 16 then ip
    else []
  }

  function Message(client: seq<Byte>, version: Byte, timestamp: Uint32, ip: seq<Byte>): seq<Byte>
  {
    client + Header(version, timestamp) + Canonical(ip)
  }

  // ---------------------------------------------------------------- reading a request

  datatype EdnsOption = Cookie(cookie: string) | OtherOption(code: nat)

  datatype Parsed = NoCookie | BadFormat | Client(client: seq<Byte>) | Full(client: seq<Byte>, server: ServerCookie)

  function ParseCookie(cookie: string): Parsed {
    if |cookie| == 16 then
      var client := HexDecode(cookie[..16]);
      if client.None? then BadFormat else Client(client.value)
    else if |cookie| == 48 then
      var client := HexDecode(cookie[..16]);
      var server := UnpackServerCookie(cookie[16..]);
      if client.None? || server.None? then BadFormat else Full(client.value, server.value)
    else BadFormat
  }

  /** The first cookie option decides; `options` is absent when the request has no OPT record. */
  method GetCookie(options: Option<seq<EdnsOption>>) returns (r: Parsed)
    ensures r == NoCookie <==> options.None? || forall i | 0 <= i < |options.value| :: options.value[i].OtherOption?
    ensures forall i | options.Some? && 0 <= i < |options.value| && options.value[i].Cookie?
                       && (forall j | 0 <= j < i :: options.value[j].OtherOption?) ::
              r == ParseCookie(options.value[i].cookie)
  {
    hide HexDecode, UnpackServerCookie;
    if options.None? {
      return NoCookie;
    }
    for i := 0 to |options.value|
      invariant forall j | 0 <= j < i :: options.value[j].OtherOption?
    {
      if options.value[i].Cookie? {
        return ParseCookie(options.value[i].cookie);
      }
    }
    return NoCookie;
  }

  // ---------------------------------------------------------------- answering a request

  /** The clock is read up to four times while one request is answered. */
  datatype Clock = Clock(before: nat, after: nat, copy: nat, issue: nat)

  predicate Monotone(now: Clock) {
    now.before <= now.after <= now.copy <= now.issue
  }

  /** One server, one client address. */
  datatype Peer = Peer(mac: Mac, ip: seq<Byte>)

  function CheckCookie(peer: Peer, client: seq<Byte>, server: ServerCookie, now: Clock): bool
  {
    && peer.mac(Message(client, server.version, server.timestamp, peer.ip)) == server.hash
    && now.before - HOUR <= server.timestamp * SECOND <= now.after + 5 * MINUTE
  }

  /** Seconds, cut to 32 bits. */
  function Timestamp(time: nat): Uint32 {
    (time / SECOND) % UINT32
  }

  function NewCookie(peer: Peer, client: seq<Byte>, time: nat): string {
    var timestamp := Timestamp(time);
    HexEncode(client) + HexEncode(PackBytes(1, timestamp, peer.mac(Message(client, 1, timestamp, peer.ip))))
  }

  function CopyCookie(peer: Peer, client: seq<Byte>, server: ServerCookie, now: Clock): string {
    if server.timestamp * SECOND < now.copy - 30 * MINUTE then NewCookie(peer, client, now.issue)
    else HexEncode(client + server.raw)
  }

  datatype Reply = Ignored | FormatError | BadCookie(cookie: string) | Accepted(cookie: string)

  /** What the server makes of the cookie of a request. */
  function Answer(peer: Peer, cookie: Option<string>, now: Clock): Reply {
    if cookie.None? then Ignored else
      match ParseCookie(cookie.value)
      case NoCookie => Ignored
      case BadFormat => FormatError
      case Client(client) => BadCookie(NewCookie(peer, client, now.issue))
      case Full(client, server) =>
        if CheckCookie(peer, client, server, now) then Accepted(CopyCookie(peer, client, server, now))
        else BadCookie(NewCookie(peer, client, now.issue))
  }

  // ---------------------------------------------------------------- parsing what was issued

  /** Parsing undoes writing a client cookie followed by any sixteen bytes of server cookie. */
  lemma ParseOfWritten(client: seq<Byte>, raw: seq<Byte>)
    requires |client| == 8 && |raw| == 16
    ensures ParseCookie(HexEncode(client) + HexEncode(raw)) == Full(client, UnpackBytes(raw).value)
  {
    hide HexDecode, HexEncode, UnpackBytes;
    var cookie := HexEncode(client) + HexEncode(raw);
    HexRoundTrip(client);
    HexRoundTrip(raw);
    assert cookie[..16] == HexEncode(client) && cookie[16..] == HexEncode(raw);
    UnpackLong(raw);
  }

  lemma UnpackLong(raw: seq<Byte>)
    requires |raw| == 16
    ensures UnpackBytes(raw).Some? && UnpackBytes(raw).value.raw == raw
  {
  }

  /** An issued cookie parses back to its client cookie, version, timestamp and hash. */
  lemma IssuedParses(peer: Peer, client: seq<Byte>, time: nat)
    requires |client| == 8
    ensures var parsed, t := ParseCookie(NewCookie(peer, client, time)), Timestamp(time);
            && parsed.Full? && parsed.client == client && parsed.server.version == 1
            && parsed.server.timestamp == t && parsed.server.hash == peer.mac(Message(client, 1, t, peer.ip))
  {
    hide HexEncode, HexDecode, Message, ParseCookie;
    var t := Timestamp(time);
    var hash := peer.mac(Message(client, 1, t, peer.ip));
    var raw := PackBytes(1, t, hash);
    hide PackBytes;
    ParseOfWritten(client, raw);
    PackRoundTrip(1, t, hash);
    HexRoundTrip(raw);
  }

  /** An echoed cookie parses back to the one that was received, reserved bytes and all. */
  lemma EchoedParses(cookie: string)
    requires ParseCookie(cookie).Full?
    ensures var p := ParseCookie(cookie);
            |p.client| == 8 && |p.server.raw| == 16
            && ParseCookie(HexEncode(p.client + p.server.raw)) == p
  {
    hide HexDecode, HexEncode, UnpackBytes;
    var p := ParseCookie(cookie);
    UnpackLong(HexDecode(cookie[16..]).value);
    HexConcat(p.client, p.server.raw);
    ParseOfWritten(p.client, p.server.raw);
  }

  // ---------------------------------------------------------------- sessions

  /** The server's own cookie for this client, at most half an hour old at `copied`, not issued after `issued`. */
  ghost predicate Held(peer: Peer, client: seq<Byte>, cookie: string, copied: int, issued: int) {
    var p := ParseCookie(cookie);
    && p.Full? && p.client == client
    && p.server.hash == peer.mac(Message(client, p.server.version, p.server.timestamp, peer.ip))
    && copied - 30 * MINUTE <= p.server.timestamp * SECOND <= issued
  }

  lemma WholeSeconds(time: nat)
    requires time < UINT32 * SECOND
    ensures Timestamp(time) * SECOND <= time < (Timestamp(time) + 1) * SECOND
  {
    assert time / SECOND < UINT32;
  }

  lemma IssuedIsHeld(peer: Peer, client: seq<Byte>, time: nat)
    requires |client| == 8 && time < UINT32 * SECOND
    ensures forall copied | copied <= time :: Held(peer, client, NewCookie(peer, client, time), copied, time)
  {
    hide ParseCookie, NewCookie, Message;
    IssuedParses(peer, client, time);
    WholeSeconds(time);
  }

  /** A request made after the previous reply was issued, and within half an hour of it. */
  predicate Prompt(copied: nat, issued: nat, now: Clock) {
    Monotone(now) && issued <= now.before <= copied + 30 * MINUTE && now.issue < UINT32 * SECOND
  }

  /** One exchange of a session: the cookie is accepted, and the one returned is good for another half hour. */
  lemma ExchangeKeepsSession(peer: Peer, client: seq<Byte>, cookie: string, copied: nat, issued: nat, now: Clock)
    requires |client| == 8 && Held(peer, client, cookie, copied, issued) && Prompt(copied, issued, now)
    ensures var reply := Answer(peer, Some(cookie), now);
            reply.Accepted? && Held(peer, client, reply.cookie, now.copy, now.issue)
  {
    hide ParseCookie, NewCookie, Message, HexEncode;
    var p := ParseCookie(cookie);
    assert CheckCookie(peer, client, p.server, now);
    IssuedIsHeld(peer, client, now.issue);
    EchoedParses(cookie);
  }

  /** The replies to a client that always presents the latest cookie it was given. */
  function Session(peer: Peer, cookie: string, clocks: seq<Clock>): (r: seq<Reply>)
    ensures |r| == |clocks|
    decreases |clocks|
  {
    if clocks == [] then [] else
      var reply := Answer(peer, Some(cookie), clocks[0]);
      [reply] + Session(peer, if reply.BadCookie? || reply.Accepted? then reply.cookie else cookie, clocks[1..])
  }

  /** Every request of the session is prompt after the reply before it. */
  predicate Lively(copied: nat, issued: nat, clocks: seq<Clock>)
    decreases |clocks|
  {
    clocks != [] ==> Prompt(copied, issued, clocks[0]) && Lively(clocks[0].copy, clocks[0].issue, clocks[1..])
  }

  lemma {:induction false} SessionAccepted(
    peer: Peer, client: seq<Byte>, cookie: string, copied: nat, issued: nat, clocks: seq<Clock>)
    requires |client| == 8 && Held(peer, client, cookie, copied, issued) && Lively(copied, issued, clocks)
    ensures forall i | 0 <= i < |clocks| :: Session(peer, cookie, clocks)[i].Accepted?
    decreases |clocks|
  {
    hide Held, Answer, Prompt;
    if clocks != [] {
      var now := clocks[0];
      ExchangeKeepsSession(peer, client, cookie, copied, issued, now);
      var reply := Answer(peer, Some(cookie), now);
      SessionAccepted(peer, client, reply.cookie, now.copy, now.issue, clocks[1..]);
      var rest := Session(peer, reply.cookie, clocks[1..]);
      assert Session(peer, cookie, clocks) == [reply] + rest;
    }
  }

  /** A session begins with a client cookie alone; once it has its first full cookie it is never refused. */
  lemma SessionPersists(peer: Peer, client: seq<Byte>, first: Clock, clocks: seq<Clock>)
    requires |client| == 8 && first.issue < UINT32 * SECOND && Lively(first.issue, first.issue, clocks)
    ensures var reply := Answer(peer, Some(HexEncode(client)), first);
            reply.BadCookie? && forall i | 0 <= i < |clocks| :: Session(peer, reply.cookie, clocks)[i].Accepted?
  {
    hide HexDecode, HexEncode, NewCookie, Held, Session, Lively;
    HexRoundTrip(client);
    var s := HexEncode(client);
    assert s[..16] == s;
    IssuedIsHeld(peer, client, first.issue);
    SessionAccepted(peer, client, NewCookie(peer, client, first.issue), first.issue, first.issue, clocks);
  }

  // ---------------------------------------------------------------- exact limits

  /** All four readings at one instant. */
  function At(time: nat): Clock {
    Clock(time, time, time, time)
  }

  /** A fresh cookie is good from the moment it is issued exactly until its 32-bit timestamp wraps. */
  lemma FreshIsAccepted(peer: Peer, client: seq<Byte>, time: nat)
    requires |client| == 8
    ensures Answer(peer, Some(NewCookie(peer, client, time)), At(time)).Accepted? <==> time < UINT32 * SECOND
  {
    hide ParseCookie, NewCookie, Message, HexEncode;
    IssuedParses(peer, client, time);
    if time < UINT32 * SECOND {
      WholeSeconds(time);
    } else {
      assert time / SECOND >= UINT32;
      Wrapped(time / SECOND);
    }
  }

  lemma Wrapped(s: nat)
    requires s >= UINT32
    ensures s % UINT32 <= s - UINT32
  {
  }

  /** Half an hour is the longest gap: a nanosecond more can cost the session. */
  lemma GapIsTight(peer: Peer, client: seq<Byte>, s: nat)
    requires |client| == 8 && s + 3601 < UINT32
    ensures var t0 := s * 1_000_000_000;
            var reply := Answer(peer, Some(NewCookie(peer, client, t0)), At(t0 + 1_800_000_000_000));
            reply.Accepted? && Answer(peer, Some(reply.cookie), At(t0 + 3_600_000_000_001)).BadCookie?
  {
    hide ParseCookie, NewCookie, Message, HexEncode;
    var cookie := NewCookie(peer, client, s * SECOND);
    IssuedParses(peer, client, s * SECOND);
    assert Timestamp(s * SECOND) == s;
    EchoedParses(cookie);
  }

  /** What is hashed determines the client cookie, the header and the canonical address. */
  lemma MessageInjective(
    c: seq<Byte>, v: Byte, t: Uint32, ip: seq<Byte>, c': seq<Byte>, v': Byte, t': Uint32, ip': seq<Byte>)
    requires |c| == |c'| == 8
    requires Message(c, v, t, ip) == Message(c', v', t', ip')
    ensures c == c' && v == v' && t == t' && Canonical(ip) == Canonical(ip')
  {
    hide Canonical;
    var m, m' := Message(c, v, t, ip), Message(c', v', t', ip');
    assert m[..8] == c && m'[..8] == c';
    assert m[8] == v && m'[8] == v';
    assert m[12..16] == BigEndian32(t) && m'[12..16] == BigEndian32(t');
    assert m[16..] == Canonical(ip) && m'[16..] == Canonical(ip');
    NumberRoundTrip(t);
    NumberRoundTrip(t');
  }

  /** A cookie issued to one address serves another, in time, exactly if the hash collides on their two messages. */
  lemma BoundToAddress(peer: Peer, other: seq<Byte>, client: seq<Byte>, time: nat, now: Clock)
    requires |client| == 8 && Canonical(peer.ip) != Canonical(other)
    ensures var t := Timestamp(time);
            var m, m' := Message(client, 1, t, peer.ip), Message(client, 1, t, other);
            && m != m'
            && (Answer(peer.(ip := other), Some(NewCookie(peer, client, time)), now).Accepted?
                <==> && peer.mac(m) == peer.mac(m')
                     && now.before - 3_600_000_000_000 <= t * 1_000_000_000 <= now.after + 300_000_000_000)
  {
    hide ParseCookie, NewCookie, Canonical, HexEncode;
    IssuedParses(peer, client, time);
    var t := Timestamp(time);
    if Message(client, 1, t, peer.ip) == Message(client, 1, t, other) {
      MessageInjective(client, 1, t, peer.ip, client, 1, t, other);
    }
  }

  // ---------------------------------------------------------------- what cookies look like

  /** The character for a number below sixteen: 0 to 9, then a to f. */
  predicate IsDigit(c: char, d: int) {
    if d < 10 then c as int == '0' as int + d else c as int == 'a' as int + d - 10
  }

  lemma DigitSpelled(d: nat)
    requires d < 16
    ensures IsDigit(DIGITS[d], d)
  {
  }

  /** Each byte is written as two such characters, the high half first. */
  lemma {:induction false} HexSpelled(bytes: seq<Byte>, k: nat)
    requires k < |bytes|
    ensures IsDigit(HexEncode(bytes)[2 * k], bytes[k] / 16) && IsDigit(HexEncode(bytes)[2 * k + 1], bytes[k] % 16)
    decreases k
  {
    hide IsDigit;
    if k == 0 {
      DigitSpelled(bytes[0] / 16);
      DigitSpelled(bytes[0] % 16);
    } else {
      HexSpelled(bytes[1..], k - 1);
      assert HexEncode(bytes)[2..] == HexEncode(bytes[1..]);
    }
  }

  predicate IsHex(c: char) {
    '0' <= c <= '9' || 'a' <= c <= 'f' || 'A' <= c <= 'F'
  }

  /** Exactly the strings of an even number of hexadecimal digits can be decoded. */
  lemma {:induction false} HexDecodable(s: string)
    ensures HexDecode(s).Some? <==> |s| % 2 == 0 && forall i | 0 <= i < |s| :: IsHex(s[i])
  {
    if |s| > 1 {
      HexDecodable(s[2..]);
      assert |s| % 2 == |s[2..]| % 2;
      if forall i | 0 <= i < |s| :: IsHex(s[i]) {
        assert forall i | 0 <= i < |s[2..]| :: s[2..][i] == s[i + 2];
      } else if IsHex(s[0]) && IsHex(s[1]) {
        var i :| 0 <= i < |s| && !IsHex(s[i]);
        assert s[2..][i - 2] == s[i];
      }
    }
  }

  /** The bytes of an issued cookie: client cookie, version 1, three zeros, the time big-endian, the hash. */
  lemma IssuedBytes(peer: Peer, client: seq<Byte>, time: nat) returns (b: seq<Byte>)
    requires |client| == 8
    ensures |b| == 4
    ensures (time / 1_000_000_000) % 4_294_967_296 ==
            b[0] as int * 16_777_216 + b[1] as int * 65_536 + b[2] as int * 256 + b[3]
    ensures var hash := peer.mac(client + [1, 0, 0, 0] + b + Canonical(peer.ip));
            HexDecode(NewCookie(peer, client, time)) == Some(client + [1, 0, 0, 0] + b + hash)
  {
    var t := Timestamp(time);
    b := BigEndian32(t);
    NumberRoundTrip(t);
    assert Number32(b) == b[0] as int * 16_777_216 + b[1] as int * 65_536 + b[2] as int * 256 + b[3];
    assert t == (time / 1_000_000_000) % 4_294_967_296;
    hide HexDecode, HexEncode, Number32, BigEndian32;
    var message := Message(client, 1, t, peer.ip);
    assert Header(1, t) == [1, 0, 0, 0] + b;
    assert message == client + [1, 0, 0, 0] + b + Canonical(peer.ip);
    var raw := PackBytes(1, t, peer.mac(message));
    HexConcat(client, raw);
    HexRoundTrip(client + raw);
    assert client + raw == client + [1, 0, 0, 0] + b + peer.mac(message);
  }

  lemma UnpackSome(raw: seq<Byte>)
    ensures UnpackBytes(raw).Some? <==> |raw| >= 16
  {
  }

  /** A client cookie is eight bytes and a server cookie sixteen, in hexadecimal. */
  predicate WellFormed(cookie: string) {
    (|cookie| == 16 || |cookie| == 48) && forall i | 0 <= i < |cookie| :: IsHex(cookie[i])
  }

  lemma HexHalves(cookie: string)
    requires |cookie| == 48
    ensures (forall i | 0 <= i < 48 :: IsHex(cookie[i])) <==>
            (forall i | 0 <= i < 16 :: IsHex(cookie[..16][i])) && (forall i | 0 <= i < 32 :: IsHex(cookie[16..][i]))
  {
    assert forall i | 0 <= i < 16 :: cookie[i] == cookie[..16][i];
    assert forall i | 16 <= i < 48 :: cookie[i] == cookie[16..][i - 16];
    forall i | 0 <= i < 32 ensures cookie[16..][i] == cookie[i + 16] {
    }
  }

  /** No cookie is ignored, a malformed one is a format error, a client cookie alone is answered with a new cookie. */
  lemma AnswerKinds(peer: Peer, cookie: Option<string>, now: Clock)
    ensures Answer(peer, cookie, now) == Ignored <==> cookie.None?
    ensures Answer(peer, cookie, now) == FormatError <==> cookie.Some? && !WellFormed(cookie.value)
    ensures cookie.Some? && WellFormed(cookie.value) && |cookie.value| == 16 ==> Answer(peer, cookie, now).BadCookie?
  {
    hide HexDecode, CheckCookie, CopyCookie, NewCookie, UnpackBytes, IsHex;
    if cookie.Some? {
      var c := cookie.value;
      if |c| == 16 {
        HexDecodable(c[..16]);
        assert c[..16] == c;
      } else if |c| == 48 {
        HexDecodable(c[..16]);
        HexDecodable(c[16..]);
        HexHalves(c);
        if HexDecode(c[16..]).Some? {
          UnpackSome(HexDecode(c[16..]).value);
        }
      }
    }
  }

  /** An IPv4 address counts the same in both notations, and different IPv6 addresses count as different. */
  lemma AddressNotation(ip: seq<Byte>, other: seq<Byte>)
    ensures |ip| == 4 ==> Canonical(ip) == Canonical([0, 0, 0, 0, 0, 0, 0, 0, 0, 0, 255, 255] + ip) == ip
    ensures |ip| == |other| == 16 && Canonical(ip) == Canonical(other) ==> ip == other
  {
    if |ip| == |other| == 16 && Canonical(ip) == Canonical(other) {
      assert ip == ip[..10] + [ip[10], ip[11]] + ip[12..];
      assert other == other[..10] + [other[10], other[11]] + other[12..];
    }
  }
}
