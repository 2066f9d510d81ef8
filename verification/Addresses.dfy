/** IPv4 addresses and endpoints: textual forms, parsing, and socket addresses. */
module Addresses {
  import opened ByteBuffers
  import opened Options
  import opened Strings

  type Address = a: Bytes | |a| == 4 witness [0, 0, 0, 0]

  datatype Endpoint = Endpoint(address: Address, port: nat)

  const PORTS: nat := 0x1_0000

  // -- Addresses --------------------------------------------------------------

  function AddressText(a: Address): string {
    Join([Decimal(a[0]), Decimal(a[1]), Decimal(a[2]), Decimal(a[3])], ".")
  }

  // The octets read until the first part that is not one.
  function Octets(parts: seq<string>): Bytes
    decreases |parts|
  {
    if parts == [] || ParseUnsigned(parts[0], 256).None? then []
    else [ParseUnsigned(parts[0], 256).value] + Octets(parts[1..])
  }

  function ParseAddress(s: string): Option<Address> {
    var parts := Split(s, ".");
    if |parts| != 4 || |Octets(parts)| != 4 then None
    else
      var a: Address := Octets(parts);
      Some(a)
  }

  predicate Parses(parts: seq<string>, bytes: Bytes)
    requires |parts| == |bytes|
  {
    forall i :: 0 <= i < |parts| ==>
      ParseUnsigned(parts[i], 256) == Some(bytes[i])
  }

  lemma ParsesTail(parts: seq<string>, bytes: Bytes)
    requires |parts| == |bytes| && parts != []
    ensures Parses(parts, bytes) <==> ParseUnsigned(parts[0], 256) == Some(bytes[0]) && Parses(parts[1..], bytes[1..])
  {
    hide ParseUnsigned;
    if ParseUnsigned(parts[0], 256) == Some(bytes[0]) && Parses(parts[1..], bytes[1..]) {
      forall i | 0 <= i < |parts| ensures ParseUnsigned(parts[i], 256) == Some(bytes[i]) {
        if i > 0 {
          assert parts[1..][i - 1] == parts[i];
        }
      }
    }
  }

  lemma {:induction false} OctetsExactly(parts: seq<string>, bytes: Bytes)
    requires |parts| == |bytes|
    ensures Octets(parts) == bytes <==> Parses(parts, bytes)
    decreases |parts|
  {
    hide ParseUnsigned;
    if parts != [] {
      OctetsExactly(parts[1..], bytes[1..]);
      ParsesTail(parts, bytes);
      assert bytes == [bytes[0]] + bytes[1..];
      assert Octets(parts) == bytes ==> Octets(parts[1..]) == bytes[1..];
    }
  }

  // Part i is octet i behind some zeros.
  ghost predicate Padded(part: string, octet: nat) {
    exists k: nat :: part == Zeros(k) + Decimal(octet)
  }

  lemma DigitsFree(s: string, c: char)
    ensures AllDigits(s) && !IsDigit(c) ==> Free(s, [c])
  {
    if AllDigits(s) && !IsDigit(c) {
      CharFree(s, c);
    }
  }

  lemma PaddedSplit(parts: seq<string>, a: Address)
    requires |parts| == 4 && forall i :: 0 <= i < 4 ==> Padded(parts[i], a[i])
    ensures Split(Join(parts, "."), ".") == parts
  {
    forall i | 0 <= i < |parts| ensures Free(parts[i], ".") {
      DigitsFree(parts[i], '.');
    }
    CharFree("", '.');
    SplitJoin(parts, ".");
  }

  /** A text parses to an address exactly when it is the four octets in decimal, each behind any number of zeros,
      with dots between them. */
  lemma AddressExactness(s: string, a: Address)
    ensures ParseAddress(s) == Some(a) <==>
            exists parts: seq<string> ::
              |parts| == 4 && s == Join(parts, ".") && forall i :: 0 <= i < 4 ==> Padded(parts[i], a[i])
  {
    hide ParseUnsigned, Octets, Padded, Join, Split;
    var split := Split(s, ".");
    JoinSplit(s, ".");
    if |split| == 4 {
      OctetsExactly(split, a);
      ParsesPadded(split, a);
    }
    if parts: seq<string> :|
      |parts| == 4 && s == Join(parts, ".") && forall i :: 0 <= i < 4 ==> Padded(parts[i], a[i])
    {
      PaddedSplit(parts, a);
      assert split == parts;
    }
  }

  lemma OctetExactness(part: string, octet: Byte)
    ensures ParseUnsigned(part, 256) == Some(octet) <==> Padded(part, octet)
  {
    ParseExactness(part, 256, octet);
    if k: nat :| part == Zeros(k) + Decimal(octet) {
      assert Padded(part, octet);
    }
    if Padded(part, octet) {
      var k: nat :| part == Zeros(k) + Decimal(octet);
      PaddedValue(k, octet);
    }
  }

  lemma ParsesPadded(parts: seq<string>, bytes: Bytes)
    requires |parts| == |bytes|
    ensures Parses(parts, bytes) <==> forall i :: 0 <= i < |parts| ==> Padded(parts[i], bytes[i])
  {
    hide ParseUnsigned, Padded;
    forall i | 0 <= i < |parts| ensures ParseUnsigned(parts[i], 256) == Some(bytes[i]) <==> Padded(parts[i], bytes[i]) {
      OctetExactness(parts[i], bytes[i]);
    }
  }

  /** Every address survives printing and parsing. */
  lemma AddressRoundTrip(a: Address)
    ensures ParseAddress(AddressText(a)) == Some(a)
  {
    var parts := [Decimal(a[0]), Decimal(a[1]), Decimal(a[2]), Decimal(a[3])];
    forall i | 0 <= i < 4 ensures Padded(parts[i], a[i]) {
      assert parts[i] == Zeros(0) + Decimal(a[i]);
    }
    AddressExactness(AddressText(a), a);
  }

  // parse_v4_address: the loop writes one octet per part.
  method ParseV4Address(s: string) returns (res: Option<Address>)
    ensures res == ParseAddress(s)
  {
    var parts := SplitText(s, ".");
    if |parts| != 4 {
      return None;
    }
    var bytes := new Byte[4];
    var complete := FillOctets(parts, bytes);
    if !complete {
      return None;
    }
    var a: Address := bytes[..];
    res := Some(a);
  }

  method FillOctets(parts: seq<string>, bytes: array<Byte>) returns (complete: bool)
    requires |parts| == bytes.Length
    modifies bytes
    ensures complete <==> |Octets(parts)| == |parts|
    ensures complete ==> bytes[..] == Octets(parts)
  {
    hide *;
    var i := 0;
    while i < |parts|
      invariant 0 <= i <= |parts|
      invariant Octets(parts) == bytes[..i] + Octets(parts[i..])
    {
      OctetsStep(parts, i);
      var value := ParseUnsigned(parts[i], 256);
      if value.None? {
        return false;
      }
      ghost var before := bytes[..i];
      bytes[i] := value.value;
      assert bytes[..i + 1] == before + [value.value];
      i := i + 1;
    }
    assert parts[i..] == [] && bytes[..i] == bytes[..];
    NoOctets();
    complete := true;
  }

  lemma NoOctets()
    ensures Octets([]) == []
  {
  }

  lemma OctetsStep(parts: seq<string>, i: nat)
    requires i < |parts|
    ensures ParseUnsigned(parts[i], 256).Some? ==> ParseUnsigned(parts[i], 256).value < 256
    ensures var value := ParseUnsigned(parts[i], 256);
            Octets(parts[i..]) == if value.None? then [] else [value.value] + Octets(parts[i + 1..])
  {
    assert parts[i..][0] == parts[i] && parts[i..][1..] == parts[i + 1..];
  }

  // -- Endpoints --------------------------------------------------------------

  function EndpointText(e: Endpoint): string {
    Join([AddressText(e.address), Decimal(e.port)], ":")
  }

  function ParseEndpoint(s: string): Option<Endpoint> {
    var parts := Split(s, ":");
    if |parts| != 2 then None
    else
      var address, port := ParseAddress(parts[0]), ParseUnsigned(parts[1], PORTS);
      if address.None? || port.None? then None else Some(Endpoint(address.value, port.value))
  }

  method ParseV4Endpoint(s: string) returns (res: Option<Endpoint>)
    ensures res == ParseEndpoint(s)
  {
    var parts := SplitText(s, ":");
    if |parts| != 2 {
      return None;
    }
    var address := ParseV4Address(parts[0]);
    if address.None? {
      return None;
    }
    var port := ParseUnsigned(parts[1], PORTS);
    if port.None? {
      return None;
    }
    res := Some(Endpoint(address.value, port.value));
  }

  lemma AddressTextChars(a: Address, c: char)
    requires !IsDigit(c) && c != '.'
    ensures c !in AddressText(a)
  {
    var ts := [Decimal(a[0]), Decimal(a[1]), Decimal(a[2]), Decimal(a[3])];
    JoinChars(ts, ".", c);
  }

  lemma {:induction false} JoinChars(ts: seq<string>, d: string, c: char)
    requires ts != [] && c !in d && forall i :: 0 <= i < |ts| ==> c !in ts[i]
    ensures c !in Join(ts, d)
    decreases |ts|
  {
    if |ts| > 1 {
      JoinChars(ts[1..], d, c);
    }
  }

  /** Every endpoint survives printing and parsing. */
  lemma EndpointRoundTrip(e: Endpoint)
    requires e.port < PORTS
    ensures ParseEndpoint(EndpointText(e)) == Some(e)
  {
    var parts := [AddressText(e.address), Decimal(e.port)];
    AddressTextChars(e.address, ':');
    CharFree(parts[0], ':');
    DigitsFree(parts[1], ':');
    SplitJoin(parts, ":");
    AddressRoundTrip(e.address);
    DecimalParses(e.port, PORTS);
  }

  // -- Socket addresses -------------------------------------------------------

  // sin_addr in memory order, and sin_port after htons on a little-endian machine.
  datatype Sockaddr = Sockaddr(addr: Address, port: nat)

  function Swapped(n: nat): nat {
    n % 256 * 256 + n / 256
  }

  function ToSockaddr(e: Endpoint): Sockaddr {
    Sockaddr(e.address, Swapped(e.port))
  }

  function FromSockaddr(s: Sockaddr): Endpoint {
    Endpoint(s.addr, Swapped(s.port))
  }

  /** In memory, least significant byte first, the port of a socket address is the port of the endpoint with the most
      significant byte first; the address is the same. */
  lemma NetworkOrder(e: Endpoint)
    requires e.port < PORTS
    ensures var s := ToSockaddr(e);
            && [s.port % 256, s.port / 256] == [e.port / 256, e.port % 256]
            && s.addr == e.address
  {
  }

  /** Endpoints and socket addresses name each other, both ways. */
  lemma SockaddrRoundTrip(e: Endpoint, s: Sockaddr)
    requires e.port < PORTS && s.port < PORTS
    ensures FromSockaddr(ToSockaddr(e)) == e
    ensures ToSockaddr(FromSockaddr(s)) == s
    ensures ToSockaddr(e).port < PORTS
  {
  }
}
