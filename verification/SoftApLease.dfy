/** The DHCP lease range of the soft access point.

    An IPAddress is its 32-bit word as the network stack stores it, octet 0 lowest. With the octets reversed it
    is the host number, in which the addresses of a subnet are consecutive.
 */
module SoftApLease {
  import opened Prelude
  import opened Words

  // ----- octets and byte order -----

  // _byte_swap32, with its shifts and masks.
  function ByteSwap32(num: u32): u32 {
    Or(Or(Or(And(Shr(num, 24), OctetMask(0)), And(Shl(num, 8), OctetMask(16))), And(Shr(num, 8), OctetMask(8))),
       And(Shl(num, 24), OctetMask(24)))
  }

  function Octet(a: u32, i: nat): (o: Bits)
    requires i < 4
    ensures |o| == 8
  {
    a[8 * i..8 * i + 8]
  }

  function WithOctet(a: u32, i: nat, o: Bits): (b: u32)
    requires i < 4 && |o| == 8
    ensures forall j :: 0 <= j < 32 ==> b[j] == if 8 * i <= j < 8 * i + 8 then o[j - 8 * i] else a[j]
  {
    a[..8 * i] + o + a[8 * i + 8..]
  }

  // Where the bit that arrives at i comes from.
  function Mirror(i: nat): (j: nat)
    requires i < 32
    ensures j < 32
  {
    if i < 8 then i + 24 else if i < 16 then i + 8 else if i < 24 then i - 8 else i - 24
  }

  lemma ByteSwapMoves(num: u32, i: nat)
    requires i < 32
    ensures ByteSwap32(num)[i] == num[Mirror(i)]
  {
  }

  // The macro reverses the octets.
  lemma ByteSwapReverses(num: u32, i: nat)
    requires i < 4
    ensures Octet(ByteSwap32(num), i) == Octet(num, 3 - i)
  {
    forall j: nat | j < 8 ensures Octet(ByteSwap32(num), i)[j] == Octet(num, 3 - i)[j] {
      ByteSwapMoves(num, 8 * i + j);
    }
  }

  lemma ByteSwapIsInvolution(num: u32)
    ensures ByteSwap32(ByteSwap32(num)) == num
  {
    var w := ByteSwap32(num);
    forall i: nat | i < 32 ensures ByteSwap32(w)[i] == num[i] {
      ByteSwapMoves(w, i);
      ByteSwapMoves(num, Mirror(i));
    }
  }

  // ----- network id and broadcast address -----

  // The first n bits are those of `full`.
  ghost predicate Agrees(a: u32, full: u32, n: nat) {
    forall j :: 0 <= j < n && j < 32 ==> a[j] == full[j]
  }

  lemma WithOctetAgrees(a: u32, full: u32, i: nat)
    requires i < 4 && Agrees(a, full, 8 * i)
    ensures Agrees(WithOctet(a, i, Octet(full, i)), full, 8 * (i + 1))
  {
  }

  lemma OctetOfAnd(a: u32, b: u32, i: nat)
    requires i < 4
    ensures Octet(And(a, b), i) == And(Octet(a, i), Octet(b, i))
  {
  }

  lemma OctetOfOrNot(a: u32, b: u32, i: nat)
    requires i < 4
    ensures Octet(Or(Not(a), b), i) == Or(Not(Octet(a, i)), Octet(b, i))
  {
  }

  // Octet by octet the loop masks the whole address.
  method CalculateNetworkID(ip: u32, subnet: u32) returns (networkID: u32)
    ensures networkID == And(subnet, ip)
  {
    networkID := Wrap(0);
    for i := 0 to 4
      invariant Agrees(networkID, And(subnet, ip), 8 * i)
    {
      OctetOfAnd(subnet, ip, i);
      WithOctetAgrees(networkID, And(subnet, ip), i);
      networkID := WithOctet(networkID, i, And(Octet(subnet, i), Octet(ip, i)));
    }
  }

  // Octet by octet the loop sets all host bits of the address.
  method CalculateBroadcast(ip: u32, subnet: u32) returns (broadcastIp: u32)
    ensures broadcastIp == Or(Not(subnet), ip)
  {
    broadcastIp := Wrap(0);
    for i := 0 to 4
      invariant Agrees(broadcastIp, Or(Not(subnet), ip), 8 * i)
    {
      OctetOfOrNot(subnet, ip, i);
      WithOctetAgrees(broadcastIp, Or(Not(subnet), ip), i);
      broadcastIp := WithOctet(broadcastIp, i, Or(Not(Octet(subnet, i)), Octet(ip, i)));
    }
  }

  // ----- the prefix length -----

  // What one octet adds; other values than a run of leading ones add nothing.
  function PrefixBits(o: nat): nat {
    if o == 0x80 then 1 else if o == 0xc0 then 2 else if o == 0xe0 then 3 else if o == 0xf0 then 4
    else if o == 0xf8 then 5 else if o == 0xfc then 6 else if o == 0xfe then 7 else if o == 0xff then 8 else 0
  }

  function CidrTo(subnet: u32, n: nat): nat
    requires n <= 4
  {
    if n == 0 then 0 else CidrTo(subnet, n - 1) + PrefixBits(Num(Octet(subnet, n - 1)))
  }

  function Cidr(subnet: u32): nat {
    CidrTo(subnet, 4)
  }

  method CalculateSubnetCIDR(subnetMask: u32) returns (cidr: nat)
    ensures cidr == Cidr(subnetMask)
  {
    cidr := 0;
    for i := 0 to 4
      invariant cidr == CidrTo(subnetMask, i)
    {
      cidr := cidr + PrefixBits(Num(Octet(subnetMask, i)));
    }
  }

  // The netmask of a prefix length, as the network stack stores it.
  function Netmask(p: nat): u32
    requires p <= 32
  {
    ByteSwap32(HostMask(32 - p))
  }

  // The netmask with k zeros, in host order.
  function HostMask(k: nat): u32 {
    seq(32, i requires 0 <= i < 32 => i >= k)
  }

  // How many of p leading ones fall into octet i.
  function OnesIn(p: nat, i: nat): (n: nat)
    ensures n <= 8
  {
    if p <= 8 * i then 0 else if p >= 8 * i + 8 then 8 else p - 8 * i
  }

  lemma NetmaskOctet(p: nat, i: nat)
    requires p <= 32 && i < 4
    ensures PrefixBits(Num(Octet(Netmask(p), i))) == OnesIn(p, i)
  {
    var o, n := Octet(Netmask(p), i), OnesIn(p, i);
    ByteSwapReverses(HostMask(32 - p), i);
    assert o == Octet(HostMask(32 - p), 3 - i);
    assert forall j :: 0 <= j < 8 ==> o[j] == (j >= 8 - n);
    LeadingOnes(o, n);
  }

  lemma LeadingOnes(o: Bits, n: nat)
    requires |o| == 8 && n <= 8 && forall j :: 0 <= j < 8 ==> o[j] == (j >= 8 - n)
    ensures PrefixBits(Num(o)) == n
  {
    ZerosBelow(8 - n, Ones(n));
    assert o == Zeros(8 - n) + Ones(n);
    NumOnes(Ones(n));
    PrefixValue(n, Num(o));
  }

  lemma PrefixValue(n: nat, o: nat)
    requires n <= 8 && o == Pow2(8 - n) * (Pow2(n) - 1)
    ensures PrefixBits(o) == n
  {
    Pow2Values();
    assert Pow2(0) == 1 && Pow2(1) == 2 && Pow2(2) == 4 && Pow2(3) == 8;
  }

  // For a contiguous netmask the sum over the octets is the prefix length.
  lemma CidrIsPrefixLength(p: nat)
    requires p <= 32
    ensures Cidr(Netmask(p)) == p
  {
    forall i: nat | i < 4 ensures PrefixBits(Num(Octet(Netmask(p), i))) == OnesIn(p, i) { NetmaskOctet(p, i); }
    CidrOfOctets(Netmask(p), p, 4);
  }

  lemma {:induction false} CidrOfOctets(subnet: u32, p: nat, n: nat)
    requires n <= 4 && forall i: nat :: i < 4 ==> PrefixBits(Num(Octet(subnet, i))) == OnesIn(p, i)
    ensures CidrTo(subnet, n) == if p <= 8 * n then p else 8 * n
  {
    if n == 0 {
    } else {
      CidrOfOctets(subnet, p, n - 1);
    }
  }

  // ----- what the masks compute -----

  // The first address of the subnet of this size that holds a.
  function Network(a: nat, size: nat): int
    requires size > 0
  {
    a - a % size
  }

  lemma NetworkOf(a: nat, size: nat, hi: nat, lo: nat)
    requires lo < size && a == lo + size * hi
    ensures a % size == lo && Network(a, size) == size * hi
  {
    UniqueRemainder(a, size, hi, lo);
  }

  // A host number in its low k bits and the bits above.
  lemma Halves(a: u32, k: nat) returns (lo: Bits, hi: Bits)
    requires k <= 32
    ensures lo == a[..k] && hi == a[k..]
    ensures Num(lo) == Num(a) % Pow2(k) && Pow2(k) * Num(hi) == Network(Num(a), Pow2(k))
  {
    lo, hi := a[..k], a[k..];
    assert a == lo + hi;
    NumConcat(lo, hi);
    NetworkOf(Num(a), Pow2(k), Num(hi), Num(lo));
  }

  lemma MaskIsNetwork(a: u32, k: nat)
    requires k <= 32
    ensures Num(And(a, HostMask(k))) == Network(Num(a), Pow2(k))
  {
    var lo, hi := Halves(a, k);
    ZerosBelow(k, hi);
    assert And(a, HostMask(k)) == Zeros(k) + hi;
  }

  lemma NotMaskIsHost(a: u32, k: nat)
    requires k <= 32
    ensures Num(And(a, Not(HostMask(k)))) == Num(a) % Pow2(k)
  {
    var lo, hi := Halves(a, k);
    ZerosAbove(lo, 32 - k);
    assert And(a, Not(HostMask(k))) == lo + Zeros(32 - k);
  }

  // All host bits set: the last address of the subnet.
  lemma BroadcastIsLast(a: u32, k: nat)
    requires k <= 32
    ensures Num(Or(Not(HostMask(k)), a)) == Network(Num(a), Pow2(k)) + Pow2(k) - 1 < WRAP
  {
    var lo, hi := Halves(a, k);
    OnesBelow(k, hi);
    assert Or(Not(HostMask(k)), a) == Ones(k) + hi;
    Pow2Values();
  }

  lemma HostBits(k: nat)
    requires k <= 32
    ensures Num(Not(HostMask(k))) == Pow2(k) - 1
  {
    NotHostMask(k);
    ZerosAbove(Ones(k), 32 - k);
    NumOnes(Ones(k));
  }

  lemma NotHostMask(k: nat)
    requires k <= 32
    ensures Not(HostMask(k)) == Ones(k) + Zeros(32 - k)
  {
  }

  // ----- the lease range -----

  // Host numbers of the first and the last leased address.
  datatype Range = Range(first: nat, last: nat)

  // The default start is the address after the access point's own.
  function RequestedStart(ap: u32, requested: u32): u32 {
    if Num(requested) == 0 then Wrap(Num(ap) + 1) else requested
  }

  // The requested start, moved to the first address of the subnet when the range would leave the subnet.
  function LeaseStart(dhcp: nat, dhcpNet: nat, dhcpHost: nat, hostMask: nat): nat {
    var leaseStartMax := (hostMask - 10) % WRAP;
    if dhcpHost >= leaseStartMax then (dhcpNet + 1) % WRAP else dhcp
  }

  // The checks on the placed range; a gateway of another subnet is not looked at.
  function Decide(ap: nat, gateway: nat, sameSubnet: bool, gwInSameSubnet: bool, start: nat): Option<Range> {
    var end := (start + 10) % WRAP;
    if !sameSubnet || start <= ap <= end || (gwInSameSubnet && start <= gateway <= end) then None
    else Some(Range(start, end))
  }

  // The checks behind the prefix check, in host order.
  function LeaseRange(ap: u32, gateway: u32, requested: u32, netmask: u32): Option<Range> {
    var dhcp := RequestedStart(ap, requested);
    var apNet, gwNet, dhcpNet := Num(And(ap, netmask)), Num(And(gateway, netmask)), Num(And(dhcp, netmask));
    var start := LeaseStart(Num(dhcp), dhcpNet, Num(And(dhcp, Not(netmask))), Num(Not(netmask)));
    Decide(Num(ap), Num(gateway), apNet == dhcpNet, gwNet == apNet, start)
  }

  function Configure(ip: u32, gateway: u32, subnet: u32, dhcpStart: u32): Option<Range> {
    if Cidr(subnet) > 28 || Cidr(subnet) < 24 then None
    else LeaseRange(ByteSwap32(ip), ByteSwap32(gateway), ByteSwap32(dhcpStart), ByteSwap32(subnet))
  }

  // The host number of an address in network byte order.
  function Host(a: u32): nat {
    Num(ByteSwap32(a))
  }

  // A dhcps_lease_t: both ends in network byte order.
  datatype Lease = Lease(startIp: u32, endIp: u32)

  function RangeOf(r: Option<Lease>): Option<Range> {
    if r.None? then None else Some(Range(Host(r.value.startIp), Host(r.value.endIp)))
  }

  // The access point's branch of set_esp_interface_ip, on the words of the network stack.
  method ConfigureLease(ip: u32, gateway: u32, subnet: u32, dhcpStart: u32) returns (r: Option<Lease>)
    ensures r.None? <==> Configure(ip, gateway, subnet, dhcpStart).None?
    ensures r.Some? ==>
      Configure(ip, gateway, subnet, dhcpStart) == Some(Range(Host(r.value.startIp), Host(r.value.endIp)))
    ensures forall p {:trigger Netmask(p)} :: p <= 32 && subnet == Netmask(p) ==>
      GrantsAsGiven(p, RangeOf(r), Host(ip), Host(gateway), Host(dhcpStart))
  {
    forall p | p <= 32 && subnet == Netmask(p)
      ensures GrantsAsGiven(p, Configure(ip, gateway, subnet, dhcpStart), Host(ip), Host(gateway), Host(dhcpStart))
    {
      ConfigureIsPlan(p, ip, gateway, dhcpStart);
    }
    var cidr := CalculateSubnetCIDR(subnet);
    if cidr > 28 || cidr < 24 {
      return None;
    }
    var range := CheckRange(ByteSwap32(ip), ByteSwap32(gateway), ByteSwap32(dhcpStart), ByteSwap32(subnet));
    if range.None? {
      return None;
    }
    var startIp := ToNetworkOrder(range.value.first);
    var endIp := ToNetworkOrder(range.value.last);
    r := Some(Lease(startIp, endIp));
  }

  method ToNetworkOrder(n: nat) returns (a: u32)
    requires n < WRAP
    ensures Host(a) == n
  {
    ByteSwapIsInvolution(Wrap(n));
    a := ByteSwap32(Wrap(n));
  }

  method CheckRange(ap: u32, gateway: u32, requested: u32, netmask: u32) returns (r: Option<Range>)
    ensures r == LeaseRange(ap, gateway, requested, netmask)
    ensures r.Some? ==> r.value.first < WRAP && r.value.last < WRAP
  {
    var dhcp := requested;
    if Num(dhcp) == 0 {
      dhcp := Wrap(Num(ap) + 1);
    }
    var apNet, dhcpNet := Num(And(ap, netmask)), Num(And(dhcp, netmask));
    if apNet != dhcpNet {
      return None;
    }
    Pow2Values();
    var start := PlaceRange(Num(dhcp), dhcpNet, Num(And(dhcp, Not(netmask))), Num(Not(netmask)));
    var gwInSameSubnet := Num(And(gateway, netmask)) == apNet;
    r := CheckHosts(Num(ap), Num(gateway), gwInSameSubnet, start);
  }

  method PlaceRange(dhcp: nat, dhcpNet: nat, dhcpHost: nat, hostMask: nat) returns (start: nat)
    requires dhcp < WRAP
    ensures start == LeaseStart(dhcp, dhcpNet, dhcpHost, hostMask) < WRAP
  {
    var leaseStartMax := (hostMask - 10) % WRAP;
    start := dhcp;
    if dhcpHost >= leaseStartMax {
      start := (dhcpNet + 1) % WRAP;
    }
  }

  method CheckHosts(ap: nat, gateway: nat, gwInSameSubnet: bool, start: nat) returns (r: Option<Range>)
    requires start < WRAP
    ensures r == Decide(ap, gateway, true, gwInSameSubnet, start)
    ensures r.Some? ==> r.value.first < WRAP && r.value.last < WRAP
  {
    var end := (start + 10) % WRAP;
    if start <= ap <= end {
      return None;
    }
    if gwInSameSubnet && start <= gateway <= end {
      return None;
    }
    r := Some(Range(start, end));
  }

  // ----- the range in plain arithmetic -----

  // Where the eleven addresses start in a subnet of this size: as asked, unless they would reach the last address.
  function PlannedStart(dhcp: nat, size: nat): int
    requires size > 0
  {
    if dhcp % size + 11 < size then dhcp else Network(dhcp, size) + 1
  }

  predicate InPlan(a: nat, dhcp: nat, size: nat)
    requires size > 0
  {
    PlannedStart(dhcp, size) <= a <= PlannedStart(dhcp, size) + 10
  }

  predicate Acceptable(p: nat, ap: nat, gateway: nat, dhcp: nat)
    requires p <= 32
  {
    var size := Pow2(32 - p);
    24 <= p <= 28 && Network(dhcp, size) == Network(ap, size) && !InPlan(ap, dhcp, size) && !InPlan(gateway, dhcp, size)
  }

  lemma SizeAt(p: nat) returns (size: nat)
    requires 24 <= p <= 28
    ensures size == Pow2(32 - p) && 16 <= size <= 0x100
  {
    Pow2Values();
    size := Pow2(32 - p);
  }

  // The planned addresses share the network and stay below its last address.
  lemma PlanFits(dhcp: nat, a: int, size: nat)
    requires size >= 16 && PlannedStart(dhcp, size) <= a <= PlannedStart(dhcp, size) + 10
    ensures 0 <= Network(dhcp, size) <= a < Network(dhcp, size) + size - 1
    ensures Network(a, size) == Network(dhcp, size)
  {
    var q, r := DivMod(dhcp, size);
    NetworkOf(a, size, q, a - q * size);
  }

  lemma DivMod(a: nat, d: nat) returns (q: nat, r: nat)
    requires d > 0
    ensures q == a / d && r == a % d < d && a == q * d + r
  {
    q, r := a / d, a % d;
    ProductBound(a / d, d);
  }

  // No sum wraps around, and the range starts where planned.
  lemma StartIsPlanned(dhcp: nat, dhcpNet: nat, dhcpHost: nat, size: nat)
    requires 16 <= size <= 0x100 && dhcpHost == dhcp % size && dhcpNet == Network(dhcp, size) <= WRAP - size
    ensures LeaseStart(dhcp, dhcpNet, dhcpHost, size - 1) == PlannedStart(dhcp, size) < WRAP - 10
  {
    PlanFits(dhcp, PlannedStart(dhcp, size) + 10, size);
    assert (size - 11) % WRAP == size - 11;
  }

  // A gateway in the range is in the subnet, so the gateway check needs no subnet of its own.
  lemma DecideIsPlan(p: nat, ap: nat, gateway: nat, dhcp: nat, size: nat)
    requires 24 <= p <= 28 && size == Pow2(32 - p) >= 16 && 0 <= PlannedStart(dhcp, size) < WRAP - 10
    ensures var gwInSameSubnet := Network(gateway, size) == Network(ap, size);
            var sameSubnet := Network(ap, size) == Network(dhcp, size);
            var r := Decide(ap, gateway, sameSubnet, gwInSameSubnet, PlannedStart(dhcp, size));
      && (r.Some? <==> Acceptable(p, ap, gateway, dhcp))
      && (r.Some? ==> r.value == Range(PlannedStart(dhcp, size), PlannedStart(dhcp, size) + 10))
  {
    if InPlan(gateway, dhcp, size) { PlanFits(dhcp, gateway, size); }
  }

  // For a contiguous netmask the bitwise checks accept exactly the acceptable requests, and give the planned range.
  lemma LeaseRangeIsPlan(p: nat, ap: u32, gateway: u32, requested: u32)
    requires 24 <= p <= 28
    ensures var dhcp := Num(RequestedStart(ap, requested));
            var r := LeaseRange(ap, gateway, requested, HostMask(32 - p));
      && (r.Some? <==> Acceptable(p, Num(ap), Num(gateway), dhcp))
      && (r.Some? ==> r.value.first == PlannedStart(dhcp, Pow2(32 - p)) && r.value.last == r.value.first + 10)
  {
    var size := SizeAt(p);
    var dhcp := RequestedStart(ap, requested);
    MaskIsNetwork(ap, 32 - p);
    MaskIsNetwork(gateway, 32 - p);
    MaskIsNetwork(dhcp, 32 - p);
    NotMaskIsHost(dhcp, 32 - p);
    HostBits(32 - p);
    BroadcastIsLast(dhcp, 32 - p);
    StartIsPlanned(Num(dhcp), Network(Num(dhcp), size), Num(dhcp) % size, size);
    DecideIsPlan(p, Num(ap), Num(gateway), Num(dhcp), size);
  }

  // ----- main results -----

  lemma ConfigureMeetsPlan(p: nat, ip: u32, gateway: u32, dhcpStart: u32)
    requires p <= 32
    ensures var dhcp := Num(RequestedStart(ByteSwap32(ip), ByteSwap32(dhcpStart)));
            var r := Configure(ip, gateway, Netmask(p), dhcpStart);
      && (r.Some? <==> Acceptable(p, Host(ip), Host(gateway), dhcp))
      && (r.Some? ==> r.value.first == PlannedStart(dhcp, Pow2(32 - p)) && r.value.last == r.value.first + 10)
  {
    CidrIsPrefixLength(p);
    ByteSwapIsInvolution(HostMask(32 - p));
    if 24 <= p <= 28 { LeaseRangeIsPlan(p, ByteSwap32(ip), ByteSwap32(gateway), ByteSwap32(dhcpStart)); }
  }

  /** What should be granted, in plain arithmetic, when a range is asked for that starts at `asked`. It starts there
      unless it would reach the last address of the subnet; then it starts at the second. It is granted exactly if
      `asked` is in the access point's subnet and neither access point nor gateway is in the range. */
  ghost predicate Grants(r: Option<Range>, ap: nat, gateway: nat, asked: nat, size: nat)
    requires size > 0
  {
    var start := if asked % size + 11 < size then asked else asked - asked % size + 1;
    && (r.Some? ==> r.value.first == start && r.value.last == start + 10)
    && (r.Some? <==>
        && asked - asked % size == ap - ap % size
        && !(start <= ap <= start + 10) && !(start <= gateway <= start + 10))
  }

  lemma PlanGrants(p: nat, r: Option<Range>, ap: nat, gateway: nat, asked: nat, size: nat)
    requires 24 <= p <= 28 && size == Pow2(32 - p)
    requires r.Some? <==> Acceptable(p, ap, gateway, asked)
    requires r.Some? ==> r.value.first == PlannedStart(asked, size) && r.value.last == r.value.first + 10
    ensures Grants(r, ap, gateway, asked, size)
  {
  }

  lemma AskedStart(ip: u32, dhcpStart: u32)
    ensures Num(RequestedStart(ByteSwap32(ip), ByteSwap32(dhcpStart))) ==
            if Host(dhcpStart) != 0 then Host(dhcpStart) else (Host(ip) + 1) % WRAP
  {
  }

  lemma ConfigureGrants(p: nat, ip: u32, gateway: u32, dhcpStart: u32, asked: nat)
    requires 24 <= p <= 28 && asked == Num(RequestedStart(ByteSwap32(ip), ByteSwap32(dhcpStart)))
    ensures Grants(Configure(ip, gateway, Netmask(p), dhcpStart), Host(ip), Host(gateway), asked, Pow2(32 - p))
  {
    ConfigureMeetsPlan(p, ip, gateway, dhcpStart);
    PlanGrants(p, Configure(ip, gateway, Netmask(p), dhcpStart), Host(ip), Host(gateway), asked, Pow2(32 - p));
  }

  // Only prefixes of 24 to 28 bits grant anything; asked for is the start that is given or, without one, the
  // address behind the access point.
  ghost predicate GrantsAsGiven(p: nat, r: Option<Range>, ap: nat, gateway: nat, given: nat)
    requires p <= 32
  {
    var asked := if given != 0 then given else (ap + 1) % WRAP;
    if 24 <= p <= 28 then Grants(r, ap, gateway, asked, Pow2(32 - p)) else r.None?
  }

  // For every contiguous netmask the bitwise checks accept exactly that, and give that range.
  lemma ConfigureIsPlan(p: nat, ip: u32, gateway: u32, dhcpStart: u32)
    requires p <= 32
    ensures GrantsAsGiven(p, Configure(ip, gateway, Netmask(p), dhcpStart), Host(ip), Host(gateway), Host(dhcpStart))
  {
    AskedStart(ip, dhcpStart);
    if 24 <= p <= 28 {
      ConfigureGrants(p, ip, gateway, dhcpStart, Num(RequestedStart(ByteSwap32(ip), ByteSwap32(dhcpStart))));
    } else {
      ConfigureMeetsPlan(p, ip, gateway, dhcpStart);
    }
  }

  // A granted lease is eleven addresses in the access point's subnet, strictly below its broadcast address, that
  // contain neither the access point nor the gateway.
  lemma LeaseIsSafe(p: nat, ip: u32, gateway: u32, dhcpStart: u32)
    requires p <= 32
    ensures var c := Configure(ip, gateway, Netmask(p), dhcpStart);
      c.Some? ==> IsSafe(p, ip, gateway, c.value)
  {
    var c, mask, ap := Configure(ip, gateway, Netmask(p), dhcpStart), HostMask(32 - p), ByteSwap32(ip);
    ConfigureMeetsPlan(p, ip, gateway, dhcpStart);
    if c.Some? {
      MaskIsNetwork(ap, 32 - p);
      BroadcastIsLast(ap, 32 - p);
      BroadcastInHostOrder(Netmask(p), ip);
      ByteSwapIsInvolution(mask);
      var size := SizeAt(p);
      forall a: u32 | c.value.first <= Num(a) <= c.value.last
        ensures Num(And(a, mask)) == Num(And(ap, mask)) && Num(a) < Host(Or(Not(Netmask(p)), ip))
      {
        PlanFits(Num(RequestedStart(ap, ByteSwap32(dhcpStart))), Num(a), size);
        MaskIsNetwork(a, 32 - p);
      }
    }
  }

  ghost predicate IsSafe(p: nat, ip: u32, gateway: u32, r: Range)
    requires p <= 32
  {
    var mask, ap := HostMask(32 - p), ByteSwap32(ip);
    && r.last == r.first + 10
    && !(r.first <= Host(ip) <= r.last) && !(r.first <= Host(gateway) <= r.last)
    && forall a: u32 :: r.first <= Num(a) <= r.last ==>
         Num(And(a, mask)) == Num(And(ap, mask)) && Num(a) < Host(Or(Not(Netmask(p)), ip))
  }

  // The broadcast address that the byte loop computes, read in host order.
  lemma BroadcastInHostOrder(subnet: u32, ip: u32)
    ensures ByteSwap32(Or(Not(subnet), ip)) == Or(Not(ByteSwap32(subnet)), ByteSwap32(ip))
  {
    forall i: nat | i < 32
      ensures ByteSwap32(Or(Not(subnet), ip))[i] == Or(Not(ByteSwap32(subnet)), ByteSwap32(ip))[i]
    {
      ByteSwapMoves(Or(Not(subnet), ip), i);
      ByteSwapMoves(subnet, i);
      ByteSwapMoves(ip, i);
    }
  }

  /** The checks do not look at the subnet's own address, which no host can use: a granted range contains it
      exactly when it is the start the caller gave (and then it is the first address of the range). */
  lemma LeaseHoldsTheNetworkAddress(p: nat, ip: u32, gateway: u32, dhcpStart: u32)
    requires p <= 32
    ensures var c := Configure(ip, gateway, Netmask(p), dhcpStart);
      c.Some? ==> HoldsOnRequest(c.value, Network(Host(ip), Pow2(32 - p)), Host(dhcpStart))
  {
    ConfigureIsPlan(p, ip, gateway, dhcpStart);
    HostBelow(ip);
    GrantHolds(p, Configure(ip, gateway, Netmask(p), dhcpStart), Host(ip), Host(gateway), Host(dhcpStart));
  }

  ghost predicate HoldsOnRequest(r: Range, network: int, given: nat) {
    && (r.first <= network <= r.last <==> given == network != 0)
    && (r.first <= network <= r.last ==> r.first == network)
  }

  lemma HostBelow(ip: u32)
    ensures Host(ip) < WRAP
  {
    Pow2Values();
  }

  lemma GrantHolds(p: nat, r: Option<Range>, ap: nat, gateway: nat, given: nat)
    requires p <= 32 && ap < WRAP
    ensures r.Some? && GrantsAsGiven(p, r, ap, gateway, given) ==>
              HoldsOnRequest(r.value, Network(ap, Pow2(32 - p)), given)
  {
    var asked := if given != 0 then given else (ap + 1) % WRAP;
    if 24 <= p <= 28 && r.Some? && Grants(r, ap, gateway, asked, Pow2(32 - p)) {
      var size := SizeAt(p);
      PlanAtNetwork(asked, size);
      NeverByDefault(ap, size);
    }
  }

  // The address behind the access point is not the subnet's own.
  lemma NeverByDefault(ap: nat, size: nat)
    requires 0 < size <= 0x100 && ap < WRAP
    ensures (ap + 1) % WRAP != Network(ap, size)
  {
    assert ap % size < size;
  }

  // A plan never starts below its network's first address, and at it only when asked to.
  lemma PlanAtNetwork(dhcp: nat, size: nat)
    requires size >= 16
    ensures PlannedStart(dhcp, size) >= Network(dhcp, size)
    ensures PlannedStart(dhcp, size) == Network(dhcp, size) <==> dhcp == Network(dhcp, size)
  {
    var q, r := DivMod(dhcp, size);
  }
}
