/** The private part of a connect token before encryption (src/connection/connect_token.cpp:15-143). */
module ConnectToken {
  import opened Bytes
  import opened Collections

  const PRIVATE_SIZE: nat := 1008
  const MAX_SERVERS: nat := 32
  const IPV4: Byte := 1
  const IPV6: Byte := 2

  /** An address: its type, the bytes of the type's variant (none for any other type) and the port. */
  datatype Address = Address(kind: Byte, bytes: seq<Byte>, port: nat)

  datatype Token = Token(
    clientId: nat, timeout: nat, addresses: seq<Address>,
    clientKey: seq<Byte>, serverKey: seq<Byte>, userData: seq<Byte>)

  function VariantSize(kind: Byte): nat {
    if kind == IPV4 then 4 else if kind == IPV6 then 16 else 0
  }

  predicate AddressOk(a: Address) {
    a.port < 0x1_0000 && |a.bytes| == VariantSize(a.kind)
  }

  predicate AllOk(s: seq<Address>) {
    forall i :: 0 <= i < |s| ==> AddressOk(s[i])
  }

  predicate Readable(a: Address) {
    a.kind == IPV4 || a.kind == IPV6
  }

  predicate AllReadable(s: seq<Address>) {
    forall i :: 0 <= i < |s| ==> Readable(s[i])
  }

  /** The ranges of the C struct's fields. */
  ghost predicate TokenOk(t: Token) {
    t.clientId < Pow256(8) && t.timeout < Pow256(4) && |t.addresses| <= 32 &&
    AllOk(t.addresses) &&
    |t.clientKey| == 32 && |t.serverKey| == 32 && |t.userData| == 256
  }

  // ---------------------------------------------------------------- writing

  function AddressBytes(a: Address): (r: seq<Byte>)
    requires AddressOk(a)
    ensures |r| == 3 + |a.bytes|
  {
    [a.kind] + a.bytes + Put16(a.port)
  }

  function AddressList(s: seq<Address>): (r: seq<Byte>)
    requires AllOk(s)
    ensures |r| <= 19 * |s|
  {
    if s == [] then [] else AddressBytes(s[0]) + AddressList(s[1..])
  }

  ghost function Head(t: Token): (r: seq<Byte>)
    ensures |r| == 16
  {
    PutLe(t.clientId, 8) + PutLe(t.timeout, 4) + PutLe(|t.addresses|, 4)
  }

  ghost function Tail(t: Token): seq<Byte> {
    t.clientKey + t.serverKey + t.userData
  }

  /** The token's bytes: at most 944, so they always fit the private section. */
  ghost function Content(t: Token): (r: seq<Byte>)
    requires TokenOk(t)
    ensures |r| <= 944
  {
    Head(t) + AddressList(t.addresses) + Tail(t)
  }

  // ---------------------------------------------------------------- reading

  function ReadAddress(s: seq<Byte>): (r: Option<Address>)
    ensures r.Some? ==> AddressOk(r.value) && 3 + |r.value.bytes| <= |s|
  {
    if |s| < 1 || (s[0] != IPV4 && s[0] != IPV6) || |s| < 3 + VariantSize(s[0]) then None else
      var n := 1 + VariantSize(s[0]);
      Some(Address(s[0], s[1..n], Le16(s[n], s[n + 1])))
  }

  function ReadAddresses(s: seq<Byte>, n: nat): Option<seq<Address>>
    decreases n
  {
    if n == 0 then Some([]) else
      match ReadAddress(s)
      case None => None
      case Some(a) =>
        match ReadAddresses(s[3 + |a.bytes|..], n - 1)
        case None => None
        case Some(rest) => Some([a] + rest)
  }

  lemma {:induction false} ReadAddressesOk(s: seq<Byte>, n: nat)
    ensures ReadAddresses(s, n).Some? ==> |ReadAddresses(s, n).value| == n && AllOk(ReadAddresses(s, n).value)
    decreases n
  {
    if n > 0 && ReadAddress(s).Some? {
      ReadAddressesOk(s[3 + |ReadAddress(s).value.bytes|..], n - 1);
    }
  }

  /** deserialize_private_token. */
  function Parse(s: seq<Byte>): Option<Token> {
    if |s| < PRIVATE_SIZE then None else
      var count := GetLe(s[12..16]);
      if count == 0 || count > MAX_SERVERS then None else
        match ReadAddresses(s[16..], count)
        case None => None
        case Some(addresses) =>
          ReadAddressesOk(s[16..], count);
          var p := 16 + |AddressList(addresses)|;
          Some(Token(GetLe(s[..8]), GetLe(s[8..12]), addresses, s[p..p + 32], s[p + 32..p + 64], s[p + 64..p + 320]))
  }

  // ---------------------------------------------------------------- round trip

  lemma AddressRoundTrip(a: Address, rest: seq<Byte>)
    requires AddressOk(a)
    ensures ReadAddress(AddressBytes(a) + rest) == if Readable(a) then Some(a) else None
  {
    var s := AddressBytes(a) + rest;
    if Readable(a) {
      assert s[1..1 + |a.bytes|] == a.bytes;
    }
  }

  lemma ReadAddressesStep(a: Address, more: seq<Byte>, n: nat)
    requires AddressOk(a)
    ensures ReadAddresses(AddressBytes(a) + more, n + 1) ==
            if Readable(a) && ReadAddresses(more, n).Some? then Some([a] + ReadAddresses(more, n).value) else None
  {
    AddressRoundTrip(a, more);
    assert (AddressBytes(a) + more)[3 + |a.bytes|..] == more;
  }

  /** The list comes back exactly when every address has a type the reader knows. */
  lemma {:induction false} AddressesRoundTrip(s: seq<Address>, rest: seq<Byte>)
    requires AllOk(s)
    ensures ReadAddresses(AddressList(s) + rest, |s|) ==
            if AllReadable(s) then Some(s) else None
    decreases |s|
  {
    if s != [] {
      var a, tail := s[0], s[1..];
      AllSplit(s);
      AddressesRoundTrip(tail, rest);
      ReadAddressesStep(a, AddressList(tail) + rest, |tail|);
      assert AddressList(s) + rest == AddressBytes(a) + (AddressList(tail) + rest) by {
        Assoc(AddressBytes(a), AddressList(tail), rest);
      }
    }
  }

  lemma AllSplit(s: seq<Address>)
    requires s != []
    ensures AllOk(s) ==> AddressOk(s[0]) && AllOk(s[1..])
    ensures AllReadable(s) <==> Readable(s[0]) && AllReadable(s[1..])
    ensures [s[0]] + s[1..] == s
  {
    assert [s[0]] + s[1..] == s;
  }

  /**
   * Reading what was written gives the token back exactly when it names at least one server and every address
   * is IPv4 or IPv6; otherwise reading fails.
   */
  lemma TokenRoundTrip(t: Token, pad: nat)
    requires TokenOk(t) && |Content(t)| + pad >= 1008
    ensures Parse(Content(t) + Zeros(pad)) ==
            if t.addresses != [] && AllReadable(t.addresses) then Some(t) else None
  {
    var s := Content(t) + Zeros(pad);
    Layout(t, pad);
    HeadFields(t, s);
    AddressesRoundTrip(t.addresses, Tail(t) + Zeros(pad));
    TailFields(t, pad);
  }

  /** The token's bytes, section by section: ids and counts are little-endian, a port follows its address. */
  lemma TokenBytes(t: Token, i: nat)
    requires TokenOk(t)
    ensures var s, p := Content(t), 16 + |AddressList(t.addresses)|;
            |s| == p + 320 &&
            (i < 8 ==> s[i] == ShiftedDown(t.clientId, i) % 256) &&
            (i < 4 ==> s[8 + i] == ShiftedDown(t.timeout, i) % 256) &&
            (i < 4 ==> s[12 + i] == ShiftedDown(|t.addresses|, i) % 256) &&
            s[p..p + 32] == t.clientKey && s[p + 32..p + 64] == t.serverKey && s[p + 64..] == t.userData
  {
    TailFields(t, 0);
    assert Content(t) + Zeros(0) == Content(t);
    if i < 8 {
      LeByte(t.clientId, 8, i);
    }
    if i < 4 {
      LeByte(t.timeout, 4, i);
      LeByte(|t.addresses|, 4, i);
    }
  }

  /** An address on the wire: type, bytes, port. */
  lemma AddressWire(a: Address, i: nat)
    requires AddressOk(a)
    ensures var s, n := AddressBytes(a), |a.bytes|;
            s[0] == a.kind && s[1..1 + n] == a.bytes && s[1 + n] == a.port % 256 && s[2 + n] == a.port / 256
    ensures a.kind == 1 ==> |a.bytes| == 4
    ensures a.kind == 2 ==> |a.bytes| == 16
  {
  }

  /** Reading refuses a short buffer and a server count of 0 or above 32. */
  lemma ParseRefuses(s: seq<Byte>)
    ensures |s| < 1008 ==> Parse(s) == None
    ensures |s| >= 1008 && !(1 <= GetLe(s[12..16]) <= 32) ==> Parse(s) == None
  {
  }

  lemma Layout(t: Token, pad: nat)
    requires TokenOk(t)
    ensures var s := Content(t) + Zeros(pad);
            s[..16] == Head(t) && s[16..] == AddressList(t.addresses) + (Tail(t) + Zeros(pad))
  {
    var list := AddressList(t.addresses);
    Assoc(Head(t), list, Tail(t));
    Assoc(Head(t), list + Tail(t), Zeros(pad));
    Assoc(list, Tail(t), Zeros(pad));
  }

  lemma HeadParts(a: seq<Byte>, b: seq<Byte>, c: seq<Byte>, s: seq<Byte>)
    requires |a| == 8 && |b| == 4 && |c| == 4 && |s| >= 16 && s[..16] == a + b + c
    ensures s[..8] == a && s[8..12] == b && s[12..16] == c
  {
    var h := s[..16];
    assert s[..8] == h[..8] && s[8..12] == h[8..12] && s[12..16] == h[12..16];
  }

  lemma HeadFields(t: Token, s: seq<Byte>)
    requires TokenOk(t) && |s| >= 16 && s[..16] == Head(t)
    ensures GetLe(s[..8]) == t.clientId && GetLe(s[8..12]) == t.timeout && GetLe(s[12..16]) == |t.addresses|
  {
    HeadParts(PutLe(t.clientId, 8), PutLe(t.timeout, 4), PutLe(|t.addresses|, 4), s);
    LeRoundTrip(t.clientId, 8);
    LeRoundTrip(t.timeout, 4);
    LeRoundTrip(|t.addresses|, 4);
  }

  lemma Middle(front: seq<Byte>, mid: seq<Byte>, back: seq<Byte>)
    ensures (front + mid + back)[|front|..|front| + |mid|] == mid
  {
  }

  /** Three consecutive sections, each found at its place. */
  lemma Sections(front: seq<Byte>, a: seq<Byte>, b: seq<Byte>, c: seq<Byte>, back: seq<Byte>)
    ensures var s, p := front + a + b + c + back, |front|;
            s[p..p + |a|] == a && s[p + |a|..p + |a| + |b|] == b && s[p + |a| + |b|..p + |a| + |b| + |c|] == c
  {
    Middle(front + a + b, c, back);
    Middle(front + a, b, c + back);
    Assoc(front + a + b, c, back);
    Middle(front, a, b + (c + back));
    Assoc(front + a, b, c + back);
  }

  lemma TailFields(t: Token, pad: nat)
    requires TokenOk(t)
    ensures var s, p := Content(t) + Zeros(pad), 16 + |AddressList(t.addresses)|;
            s[p..p + 32] == t.clientKey && s[p + 32..p + 64] == t.serverKey && s[p + 64..p + 320] == t.userData
  {
    var front := Head(t) + AddressList(t.addresses);
    Sections(front, t.clientKey, t.serverKey, t.userData, Zeros(pad));
    Assoc(front, t.clientKey + t.serverKey, t.userData);
    Assoc(front, t.clientKey, t.serverKey);
  }

  // ---------------------------------------------------------------- in place

  lemma SpliceAfter(done: seq<Byte>, n: nat, data: seq<Byte>)
    requires |data| <= n
    ensures Splice(done + Zeros(n), |done|, data) == done + data + Zeros(n - |data|)
  {
  }

  /** Appends to a buffer that is zero from `pos` on. */
  method Append(buf: array<Byte>, pos: nat, ghost done: seq<Byte>, data: seq<Byte>) returns (after: nat)
    requires pos == |done| && pos + |data| <= buf.Length && buf[..] == done + Zeros(buf.Length - pos)
    modifies buf
    ensures after == pos + |data| && buf[..] == done + data + Zeros(buf.Length - after)
  {
    SpliceAfter(done, buf.Length - pos, data);
    CopyInto(buf, pos, data);
    after := pos + |data|;
  }

  lemma {:induction false} AddressListPush(s: seq<Address>, a: Address)
    requires AllOk(s) && AddressOk(a)
    ensures AddressList(s + [a]) == AddressList(s) + AddressBytes(a)
    decreases |s|
  {
    if s != [] {
      AddressListPush(s[1..], a);
      assert (s + [a])[1..] == s[1..] + [a];
    } else {
      assert s + [a] == [a];
    }
  }

  method WriteAddresses(t: Token, buf: array<Byte>, start: nat, ghost head: seq<Byte>) returns (pos: nat)
    requires TokenOk(t) && start == |head| == 16 && buf.Length >= PRIVATE_SIZE
    requires buf[..] == head + Zeros(buf.Length - start)
    modifies buf
    ensures pos == start + |AddressList(t.addresses)|
    ensures buf[..] == head + AddressList(t.addresses) + Zeros(buf.Length - pos)
  {
    pos := start;
    assert t.addresses[..0] == [];
    for i := 0 to |t.addresses|
      invariant pos == start + |AddressList(t.addresses[..i])|
      invariant buf[..] == head + AddressList(t.addresses[..i]) + Zeros(buf.Length - pos)
    {
      AddressListPush(t.addresses[..i], t.addresses[i]);
      assert t.addresses[..i + 1] == t.addresses[..i] + [t.addresses[i]];
      ghost var done := head + AddressList(t.addresses[..i]);
      pos := Append(buf, pos, done, AddressBytes(t.addresses[i]));
      assert done + AddressBytes(t.addresses[i]) == head + AddressList(t.addresses[..i + 1]);
    }
    assert t.addresses[..|t.addresses|] == t.addresses;
  }

  method ClearAll(buf: array<Byte>)
    modifies buf
    ensures buf[..] == [] + Zeros(buf.Length)
  {
    for i := 0 to buf.Length
      invariant forall k :: 0 <= k < i ==> buf[k] == 0
    {
      buf[i] := 0;
    }
  }

  /** serialize_private_token: the length, or -1 when the buffer is smaller than the private section. */
  method Serialize(t: Token, buf: array<Byte>) returns (n: int)
    requires TokenOk(t)
    modifies buf
    ensures n == if buf.Length < 1008 then -1 else |Content(t)|
    ensures n >= 0 ==> buf[..] == Content(t) + Zeros(buf.Length - n)
  {
    if buf.Length < PRIVATE_SIZE {
      return -1;
    }
    ClearAll(buf);
    var head := PutLe(t.clientId, 8) + PutLe(t.timeout, 4) + PutLe(|t.addresses|, 4);
    var pos := Append(buf, 0, [], head);
    assert [] + head == Head(t);
    pos := WriteAddresses(t, buf, pos, head);
    pos := Append(buf, pos, head + AddressList(t.addresses), t.clientKey + t.serverKey + t.userData);
    return pos;
  }

  /** What the reading loop will return when `done` has been read and `more` addresses follow. */
  function Resume(done: seq<Address>, s: seq<Byte>, more: nat): Option<seq<Address>> {
    match ReadAddresses(s, more)
    case None => None
    case Some(rest) => Some(done + rest)
  }

  method ReadAddressLoop(buf: seq<Byte>, count: nat) returns (r: Option<seq<Address>>, pos: nat)
    requires |buf| >= PRIVATE_SIZE
    ensures r == ReadAddresses(buf[16..], count)
    ensures r.Some? ==> AllOk(r.value) && pos == 16 + |AddressList(r.value)|
  {
    pos := 16;
    var done: seq<Address> := [];
    var more, failed := count, false;
    ghost var goal := ReadAddresses(buf[16..], count);
    ReadingStart(buf, count);
    while more > 0 && !failed
      invariant failed ==> goal == None
      invariant !failed ==> Reading(done, buf, pos, more, goal)
    {
      done, pos, failed := ReadNext(done, buf, pos, more, goal);
      more := more - 1;
    }
    if failed {
      return None, pos;
    }
    ReadingDone(done, buf, pos, goal);
    return Some(done), pos;
  }

  lemma ReadingStart(buf: seq<Byte>, count: nat)
    requires |buf| >= 16
    ensures Reading([], buf, 16, count, ReadAddresses(buf[16..], count))
  {
    var all := ReadAddresses(buf[16..], count);
    assert all.Some? ==> [] + all.value == all.value;
  }

  lemma ReadingDone(done: seq<Address>, buf: seq<Byte>, pos: nat, goal: Option<seq<Address>>)
    requires Reading(done, buf, pos, 0, goal)
    ensures goal == Some(done)
  {
    assert done + [] == done;
  }

  /** `done` has been read up to `pos`, and reading `more` addresses from there on gives the rest of `goal`. */
  ghost predicate Reading(done: seq<Address>, buf: seq<Byte>, pos: nat, more: nat, goal: Option<seq<Address>>) {
    16 <= pos <= |buf| && AllOk(done) && pos == 16 + |AddressList(done)| && Resume(done, buf[pos..], more) == goal
  }

  method ReadNext(done0: seq<Address>, buf: seq<Byte>, pos0: nat, more: nat, ghost goal: Option<seq<Address>>)
    returns (done: seq<Address>, pos: nat, failed: bool)
    requires Reading(done0, buf, pos0, more, goal) && more > 0
    ensures failed ==> goal == None
    ensures !failed ==> Reading(done, buf, pos, more - 1, goal)
  {
    done, pos, failed := done0, pos0, true;
    var a := ReadAddress(buf[pos..]);
    if a.Some? {
      ResumeStep(done, buf, pos, more);
      AddressListPush(done, a.value);
      done, pos, failed := done + [a.value], pos + 3 + |a.value.bytes|, false;
    }
  }

  lemma ResumeStep(done: seq<Address>, buf: seq<Byte>, pos: nat, more: nat)
    requires more > 0 && pos <= |buf| && ReadAddress(buf[pos..]).Some?
    ensures var a := ReadAddress(buf[pos..]).value;
            Resume(done, buf[pos..], more) == Resume(done + [a], buf[pos + 3 + |a.bytes|..], more - 1)
  {
    var a := ReadAddress(buf[pos..]).value;
    var after := buf[pos + 3 + |a.bytes|..];
    assert buf[pos..][3 + |a.bytes|..] == after;
    var rest := ReadAddresses(after, more - 1);
    if rest.Some? {
      assert done + ([a] + rest.value) == (done + [a]) + rest.value;
    }
  }

  /** deserialize_private_token: a token, or nothing for a bad size, count or address. */
  method Deserialize(buf: seq<Byte>) returns (r: Option<Token>)
    ensures r == Parse(buf)
  {
    if |buf| < PRIVATE_SIZE {
      return None;
    }
    var count := GetLe(buf[12..16]);
    if count == 0 || count > MAX_SERVERS {
      return None;
    }
    ReadAddressesOk(buf[16..], count);
    var addresses, pos := ReadAddressLoop(buf, count);
    if addresses.None? {
      return None;
    }
    r := Some(Token(GetLe(buf[..8]), GetLe(buf[8..12]), addresses.value,
                    buf[pos..pos + 32], buf[pos + 32..pos + 64], buf[pos + 64..pos + 320]));
  }
}
