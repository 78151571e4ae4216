/** The identifier patterns the agent checks before it acts. */
module Patterns {

  type Port = p: nat | p < 0x1_0000

  predicate IsLowerHex(c: char) {
    '0' <= c <= '9' || 'a' <= c <= 'f'
  }

  predicate IsHyphenPosition(i: nat) {
    i == 8 || i == 13 || i == 18 || i == 23
  }

  /** A lowercase UUID, version 1 to 5, RFC variant. */
  predicate IsUuid(s: string) {
    && |s| == 36
    && (forall i :: 0 <= i < 36 ==> if IsHyphenPosition(i) then s[i] == '-' else IsLowerHex(s[i]))
    && '1' <= s[14] <= '5'
    && (s[19] == '8' || s[19] == '9' || s[19] == 'a' || s[19] == 'b')
  }

  /** What a place of a UUID can be changed to: another digit, but few at the version and the variant. */
  lemma UuidPlaces(s: string, i: nat, c: char)
    requires IsUuid(s) && i < 36
    ensures IsUuid(s[i := c]) <==>
            if i == 8 || i == 13 || i == 18 || i == 23 then c == '-'
            else if i == 14 then '1' <= c <= '5'
            else if i == 19 then c == '8' || c == '9' || c == 'a' || c == 'b'
            else '0' <= c <= '9' || 'a' <= c <= 'f'
  {
    var t := s[i := c];
    assert forall j :: 0 <= j < 36 && j != i ==> t[j] == s[j];
    assert t[i] == c;
    if i == 14 && '1' <= c <= '5' {
      assert t[19] == s[19];
    }
  }

  lemma UuidExample()
    ensures IsUuid("00000000-0000-1000-8000-000000000000")
    ensures forall s :: IsUuid(s) ==> |s| == 36
  {
  }

  /** The ports 2222 to 2224 belong to the local control endpoints of the nodes. */
  predicate IsControlPort(port: Port) {
    2222 <= port <= 2224
  }

  datatype Protocol = VlessReality | VlessTlsVision | Hysteria2 | UnknownProtocol

  datatype Network = Tcp | Udp | UnknownNetwork

  function ControlPortOf(protocol: Protocol): Port {
    match protocol
    case VlessReality => 2222
    case VlessTlsVision => 2223
    case Hysteria2 => 2224
    case UnknownProtocol => 0
  }

  /** Three protocols with a control port each, 2222 to 2224; one of them is over UDP. */
  lemma ProtocolsDiffer(a: Protocol, b: Protocol)
    ensures ControlPortOf(VlessReality) == 2222 && NetworkOf(Hysteria2) == Udp
    ensures IsControlPort(ControlPortOf(a)) <==> a != UnknownProtocol
    ensures ControlPortOf(a) == ControlPortOf(b) ==> a == b
    ensures a == VlessTlsVision && b == Hysteria2 ==> ControlPortOf(a) < ControlPortOf(b)
    ensures NetworkOf(a) == Tcp <==> a == VlessReality || a == VlessTlsVision
    ensures NetworkOf(a) == UnknownNetwork <==> a == UnknownProtocol
    ensures forall port: Port :: IsControlPort(port) <==> exists p :: p != UnknownProtocol && ControlPortOf(p) == port
  {
    assert ControlPortOf(VlessTlsVision) == 2223 && ControlPortOf(Hysteria2) == 2224;
  }

  function NetworkOf(protocol: Protocol): Network {
    match protocol
    case VlessReality => Tcp
    case VlessTlsVision => Tcp
    case Hysteria2 => Udp
    case UnknownProtocol => UnknownNetwork
  }

  ghost predicate Distinct<T>(s: seq<T>) {
    forall i, j :: 0 <= i < j < |s| ==> s[i] != s[j]
  }
}
