/** `is_private_ip` (integrated_final/ip_utils.py): whether an address lies in
    one of eight private or reserved networks. Parsing the text of an address
    is left to the caller: the input is the parsed address, or `None` where
    Python's `ipaddress.ip_address` raises `ValueError`. */
module PrivateAddresses {
  import opened Wrappers

  function Pow2(n: nat): (p: nat)
    ensures p >= 1
  {
    if n == 0 then 1 else 2 * Pow2(n - 1)
  }

  /** An address as the integer Python keeps in `_ip`. */
  datatype IpAddress = V4(value: nat) | V6(value: nat)

  /** The number of bits of an address of this version. */
  function Width(v6: bool): nat {
    if v6 then 128 else 32
  }

  /** `ip_network(base/prefix)` */
  datatype Network = Network(v6: bool, base: nat, prefix: nat)

  /** The size of the block of addresses a network covers. */
  function BlockSize(n: Network): nat {
    if n.prefix <= Width(n.v6) then Pow2(Width(n.v6) - n.prefix) else 1
  }

  /** `addr in net`: false across versions, otherwise the address and the
      network agree on the first `prefix` bits. */
  predicate InNetwork(a: IpAddress, n: Network) {
    a.V6? == n.v6 && a.value / BlockSize(n) == n.base / BlockSize(n)
  }

  /** `_PRIVATE_NETWORKS`: 10.0.0.0/8, 172.16.0.0/12, 192.168.0.0/16,
      127.0.0.0/8, 169.254.0.0/16, ::1/128, fc00::/7, fe80::/10. */
  const PrivateNetworks: seq<Network> := [
    Network(false, 0x0A00_0000, 8),
    Network(false, 0xAC10_0000, 12),
    Network(false, 0xC0A8_0000, 16),
    Network(false, 0x7F00_0000, 8),
    Network(false, 0xA9FE_0000, 16),
    Network(true, 1, 128),
    Network(true, 0xFC00_0000_0000_0000_0000_0000_0000_0000, 7),
    Network(true, 0xFE80_0000_0000_0000_0000_0000_0000_0000, 10)
  ]

  /** `is_private_ip(ip)`: an unparsable address is not private. */
  function IsPrivateIp(addr: Option<IpAddress>): (b: bool)
    ensures addr.None? ==> !b
  {
    match addr
    case None => false
    case Some(a) => exists n :: n in PrivateNetworks && InNetwork(a, n)
  }

  /** `any(addr in net for net in _PRIVATE_NETWORKS)`, one network at a time. */
  lemma AnyNetwork(a: IpAddress)
    ensures IsPrivateIp(Some(a)) <==>
      || InNetwork(a, PrivateNetworks[0]) || InNetwork(a, PrivateNetworks[1])
      || InNetwork(a, PrivateNetworks[2]) || InNetwork(a, PrivateNetworks[3])
      || InNetwork(a, PrivateNetworks[4]) || InNetwork(a, PrivateNetworks[5])
      || InNetwork(a, PrivateNetworks[6]) || InNetwork(a, PrivateNetworks[7])
  {
    AnyOfEight(a, PrivateNetworks);
  }

  lemma AnyOfEight(a: IpAddress, ns: seq<Network>)
    requires |ns| == 8
    ensures (exists n :: n in ns && InNetwork(a, n)) <==>
      || InNetwork(a, ns[0]) || InNetwork(a, ns[1]) || InNetwork(a, ns[2]) || InNetwork(a, ns[3])
      || InNetwork(a, ns[4]) || InNetwork(a, ns[5]) || InNetwork(a, ns[6]) || InNetwork(a, ns[7])
  {
    if exists n :: n in ns && InNetwork(a, n) {
      var n :| n in ns && InNetwork(a, n);
      var i :| 0 <= i < |ns| && ns[i] == n;
    }
  }

  /** The block size of each listed network: `2**(width - prefix)`. */
  lemma BlockSizes()
    ensures BlockSize(PrivateNetworks[0]) == 0x100_0000
    ensures BlockSize(PrivateNetworks[1]) == 0x10_0000
    ensures BlockSize(PrivateNetworks[2]) == 0x1_0000
    ensures BlockSize(PrivateNetworks[3]) == 0x100_0000
    ensures BlockSize(PrivateNetworks[4]) == 0x1_0000
    ensures BlockSize(PrivateNetworks[5]) == 1
    ensures BlockSize(PrivateNetworks[6]) == 0x200_0000_0000_0000_0000_0000_0000_0000
    ensures BlockSize(PrivateNetworks[7]) == 0x40_0000_0000_0000_0000_0000_0000_0000
  {
    PowersUsed();
    var ns := PrivateNetworks;
    assert ns[0].prefix == 8 && ns[1].prefix == 12 && ns[2].prefix == 16 && ns[3].prefix == 8;
    assert ns[4].prefix == 16 && ns[5].prefix == 128 && ns[6].prefix == 7 && ns[7].prefix == 10;
    assert !ns[0].v6 && !ns[1].v6 && !ns[2].v6 && !ns[3].v6 && !ns[4].v6;
    assert ns[5].v6 && ns[6].v6 && ns[7].v6;
    assert BlockSize(ns[0]) == Pow2(24) && BlockSize(ns[1]) == Pow2(20) && BlockSize(ns[2]) == Pow2(16);
    assert BlockSize(ns[3]) == Pow2(24) && BlockSize(ns[4]) == Pow2(16) && BlockSize(ns[5]) == Pow2(0);
    assert BlockSize(ns[6]) == Pow2(121) && BlockSize(ns[7]) == Pow2(118);
  }

  /** A well formed network: its base is an address of its version with no
      bits set past the prefix, the first address of its block. */
  ghost predicate Aligned(n: Network) {
    n.prefix <= Width(n.v6) && n.base % BlockSize(n) == 0 && n.base < Pow2(Width(n.v6))
  }

  /** Every listed network is well formed. */
  lemma NetworksAligned()
    ensures forall i :: 0 <= i < |PrivateNetworks| ==> Aligned(PrivateNetworks[i])
  {
    BlockSizes();
    PowersUsed();
    var ns := PrivateNetworks;
    assert ns[0].base == 0x0A00_0000 && ns[1].base == 0xAC10_0000 && ns[2].base == 0xC0A8_0000;
    assert ns[3].base == 0x7F00_0000 && ns[4].base == 0xA9FE_0000 && ns[5].base == 1;
    assert ns[6].base == 0xFC00_0000_0000_0000_0000_0000_0000_0000;
    assert ns[7].base == 0xFE80_0000_0000_0000_0000_0000_0000_0000;
    assert Aligned(ns[0]) && Aligned(ns[1]);
    assert Aligned(ns[2]) && Aligned(ns[3]);
    assert Aligned(ns[4]) && Aligned(ns[5]);
    assert Aligned(ns[6]) && Aligned(ns[7]);
  }

  /** `2**(a + b) == 2**a * 2**b` */
  lemma {:induction false} Pow2Add(a: nat, b: nat)
    ensures Pow2(a + b) == Pow2(a) * Pow2(b)
    decreases a
  {
    if a > 0 {
      Pow2Add(a - 1, b);
    }
  }

  /** The block sizes the networks use. */
  lemma PowersUsed()
    ensures Pow2(0) == 1 && Pow2(16) == 0x1_0000 && Pow2(20) == 0x10_0000
    ensures Pow2(24) == 0x100_0000 && Pow2(32) == 0x1_0000_0000
    ensures Pow2(112) == 0x1_0000_0000_0000_0000_0000_0000_0000
    ensures Pow2(118) == 0x40_0000_0000_0000_0000_0000_0000_0000
    ensures Pow2(121) == 0x200_0000_0000_0000_0000_0000_0000_0000
    ensures Pow2(128) == 0x1_0000_0000_0000_0000_0000_0000_0000_0000
  {
    assert Pow2(4) == 0x10 && Pow2(6) == 0x40 && Pow2(8) == 0x100 && Pow2(9) == 0x200;
    Pow2Add(8, 8);
    Pow2Add(16, 4);
    Pow2Add(16, 8);
    Pow2Add(16, 16);
    Pow2Add(32, 32);
    Pow2Add(64, 32);
    Pow2Add(96, 16);
    Pow2Add(112, 6);
    Pow2Add(112, 9);
    Pow2Add(64, 64);
  }

  /** The first octet `a / 2**24` and the second `(a / 2**16) % 256` of an
      IPv4 address. */
  function Octet1(a: nat): nat { a / 0x100_0000 }
  function Octet2(a: nat): nat { (a / 0x1_0000) % 0x100 }

  /** An IPv4 address is private exactly when it starts 10., 172.16-31.,
      192.168., 127. or 169.254. */
  lemma PrivateV4(a: nat)
    requires a < 0x1_0000_0000
    ensures IsPrivateIp(Some(V4(a))) <==>
      || Octet1(a) == 10
      || (Octet1(a) == 172 && 16 <= Octet2(a) < 32)
      || (Octet1(a) == 192 && Octet2(a) == 168)
      || Octet1(a) == 127
      || (Octet1(a) == 169 && Octet2(a) == 254)
  {
    AnyNetwork(V4(a));
    BlockSizes();
    var x := V4(a);
    var h := a / 0x1_0000;
    assert Octet1(a) == h / 0x100;
    assert a / 0x10_0000 == h / 0x10;
    assert InNetwork(x, PrivateNetworks[0]) <==> Octet1(a) == 10;
    assert InNetwork(x, PrivateNetworks[1]) <==> h / 0x10 == 0xAC1;
    assert h / 0x10 == 0xAC1 <==> (Octet1(a) == 172 && 16 <= Octet2(a) < 32);
    assert InNetwork(x, PrivateNetworks[2]) <==> h == 0xC0A8;
    assert InNetwork(x, PrivateNetworks[3]) <==> Octet1(a) == 127;
    assert InNetwork(x, PrivateNetworks[4]) <==> h == 0xA9FE;
  }

  /** The first 16-bit group of an IPv6 address. */
  function Group1(a: nat): nat { a / 0x1_0000_0000_0000_0000_0000_0000_0000 }

  /** An IPv6 address is private exactly when it is `::1` or its first group
      lies in fc00-fdff or fe80-febf. */
  lemma PrivateV6(a: nat)
    requires a < 0x1_0000_0000_0000_0000_0000_0000_0000_0000
    ensures IsPrivateIp(Some(V6(a))) <==>
      || a == 1
      || 0xFC00 <= Group1(a) <= 0xFDFF
      || 0xFE80 <= Group1(a) <= 0xFEBF
  {
    AnyNetwork(V6(a));
    BlockSizes();
    var x := V6(a);
    var g := Group1(a);
    assert a / 0x200_0000_0000_0000_0000_0000_0000_0000 == g / 0x200;
    assert a / 0x40_0000_0000_0000_0000_0000_0000_0000 == g / 0x40;
    assert InNetwork(x, PrivateNetworks[5]) <==> a == 1;
    assert InNetwork(x, PrivateNetworks[6]) <==> g / 0x200 == 0x7E;
    assert InNetwork(x, PrivateNetworks[7]) <==> g / 0x40 == 0x3FA;
  }

  /** The IPv4-mapped form `::ffff:10.0.0.1` is an IPv6 address, and none of
      the IPv6 networks holds it: only the IPv4 form is private. */
  lemma MappedV4NotPrivate()
    ensures IsPrivateIp(Some(V4(0x0A00_0001)))
    ensures !IsPrivateIp(Some(V6(0xFFFF_0A00_0001)))
  {
    PrivateV4(0x0A00_0001);
    PrivateV6(0xFFFF_0A00_0001);
  }
}
