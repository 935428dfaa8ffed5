/** Handing out node addresses from one shared counter. */
module Addresses {
  import opened Strings
  import opened Wrappers

  /** The counter shared by all address managers: the kit's block address and the
      last address handed out, if any. */
  class IPAddressManager {
    var kitBlockIp: string
    var nextIp: Option<string>

    constructor (networkId: string, block: nat)
      requires |networkId| >= 2
      ensures nextIp == None && kitBlockIp == Address(networkId[..|networkId| - 2], block)
    {
      kitBlockIp, nextIp := networkId[..|networkId| - 2] + "." + NatText(block), None;
    }

    /** The first address is the block's, moved up by the node's index and by the
        three addresses kept for control planes; each later one is the next. */
    method GetNextNodeAddressV2(index: nat) returns (ip: string)
      requires HasOctet(if nextIp.Some? then nextIp.value else kitBlockIp)
      modifies this
      ensures kitBlockIp == old(kitBlockIp) && nextIp == Some(ip)
      ensures ip == if old(nextIp).Some? then Moved(old(nextIp).value, 1) else Moved(kitBlockIp, index + 3)
    {
      if nextIp.None? {
        var pos := LastIndex(kitBlockIp, '.') + 1;
        var lastOctet := ParseNat(kitBlockIp[pos..]);
        nextIp := Some(kitBlockIp[..pos] + NatText(lastOctet + index + 3));
        return nextIp.value;
      }
      var pos := LastIndex(nextIp.value, '.') + 1;
      var lastOctet := ParseNat(nextIp.value[pos..]);
      nextIp := Some(nextIp.value[..pos] + NatText(lastOctet + 1));
      return nextIp.value;
    }
  }

  /** The part after the last dot is a number. */
  predicate HasOctet(ip: string) {
    AllDigits(ip[LastIndex(ip, '.') + 1..])
  }

  /** The address of a base with the given last octet. */
  function Address(base: string, octet: nat): string {
    base + "." + NatText(octet)
  }

  /** The address with its last octet moved up. */
  function Moved(ip: string, offset: nat): string
    requires HasOctet(ip)
  {
    var pos := LastIndex(ip, '.') + 1;
    ip[..pos] + NatText(ParseNat(ip[pos..]) + offset)
  }

  lemma {:induction false} LastDot(base: string, digits: string)
    requires AllDigits(digits)
    ensures LastIndex(base + "." + digits, '.') == |base|
    decreases |digits|
  {
    var s := base + "." + digits;
    var n := |digits| - 1;
    assert s[|s| - 1] == digits[n] != '.';
    if n > 0 {
      assert s[..|s| - 1] == base + "." + digits[..n];
      LastDot(base, digits[..n]);
    } else {
      assert s[..|s| - 1] == base + ".";
    }
  }

  /** Moving an address of a base moves its number. */
  lemma MovedOctet(base: string, octet: nat, offset: nat)
    ensures HasOctet(Address(base, octet))
    ensures Moved(Address(base, octet), offset) == Address(base, octet + offset)
  {
    ParseOfText(octet);
    LastDot(base, NatText(octet));
    var ip := Address(base, octet);
    assert ip[|base| + 1..] == NatText(octet) && ip[..|base| + 1] == base + ".";
  }

  /** The addresses of n nodes whose first one has the given octet. */
  function Block(base: string, first: nat, n: nat): seq<string> {
    if n == 0 then [] else Block(base, first, n - 1) + [Address(base, first + n - 1)]
  }

  /** What the counter holds when i nodes were numbered from start on. */
  ghost function Given(base: string, block: nat, start: nat, i: nat): Option<string> {
    if i == 0 then None else Some(Address(base, block + start + i + 2))
  }

  /** The next address after the one of a base with this octet. */
  method NextAfter(manager: IPAddressManager, ghost base: string, ghost octet: nat, ghost offset: nat, index: nat)
    returns (ip: string)
    requires if manager.nextIp.None? then manager.kitBlockIp == Address(base, octet) && offset == index + 3
             else manager.nextIp.value == Address(base, octet) && offset == 1
    modifies manager
    ensures manager.kitBlockIp == old(manager.kitBlockIp) && manager.nextIp == Some(ip)
    ensures ip == Address(base, octet + offset)
  {
    MovedOctet(base, octet, offset);
    ip := manager.GetNextNodeAddressV2(index);
  }

  /** One address per node, for nodes numbered from startIndex on. */
  method InitializeNodeArray(manager: IPAddressManager, ghost base: string, ghost block: nat, numNodes: nat,
                             startIndex: nat)
    returns (addresses: seq<string>)
    requires manager.nextIp == None && manager.kitBlockIp == Address(base, block)
    modifies manager
    ensures addresses == Block(base, block + startIndex + 3, numNodes)
  {
    addresses := [];
    for i := 0 to numNodes
      invariant manager.kitBlockIp == Address(base, block) && manager.nextIp == Given(base, block, startIndex, i)
      invariant addresses == Block(base, block + startIndex + 3, i)
    {
      ghost var octet := if i == 0 then block else block + startIndex + i + 2;
      var ip := NextAfter(manager, base, octet, if i == 0 then startIndex + 3 else 1, startIndex + i);
      addresses := addresses + [ip];
    }
  }

  /** Node i, whose number is start + i, has the octet block + number + 3; so no
      two nodes share an address. */
  lemma {:induction false} BlockAddresses(base: string, block: nat, start: nat, n: nat, i: nat, j: nat)
    requires i < n && j < n
    ensures var addresses := Block(base, block + start + 3, n);
            && |addresses| == n && addresses[i] == Address(base, block + (start + i) + 3)
            && (addresses[i] == addresses[j] <==> i == j)
    decreases n
  {
    var addresses := Block(base, block + start + 3, n);
    BlockAt(base, block + start + 3, n, i);
    BlockAt(base, block + start + 3, n, j);
    AddressesDiffer(base, block + (start + i) + 3, block + (start + j) + 3);
  }

  lemma {:induction false} BlockAt(base: string, first: nat, n: nat, i: nat)
    requires i < n
    ensures |Block(base, first, n)| == n && Block(base, first, n)[i] == Address(base, first + i)
  {
    BlockLength(base, first, n);
    BlockLength(base, first, n - 1);
    if i < n - 1 {
      BlockAt(base, first, n - 1, i);
    }
  }

  lemma {:induction false} BlockLength(base: string, first: nat, n: nat)
    ensures |Block(base, first, n)| == n
  {
    if n > 0 {
      BlockLength(base, first, n - 1);
    }
  }

  /** Different nodes get different addresses. */
  lemma AddressesDiffer(base: string, a: nat, b: nat)
    ensures Address(base, a) == Address(base, b) <==> a == b
  {
    ParseOfText(a);
    ParseOfText(b);
    assert Address(base, a)[|base| + 1..] == NatText(a) && Address(base, b)[|base| + 1..] == NatText(b);
  }
}
