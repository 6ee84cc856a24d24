/** The two routing tables in place: a linked list, and an array. */
module RouteTables {
  import opened Wrappers
  import opened Routes

  datatype Result = NoError | Inval | NoMem

  class Node {
    var address: nat
    var netmask: nat
    var route: Route
    var next: Node?

    constructor (address: nat, netmask: nat, route: Route)
      ensures this.address == address && this.netmask == netmask && this.route == route && next == null
    {
      this.address, this.netmask, this.route, next := address, netmask, route, null;
    }
  }

  class CidrTable {
    var head: Node?
    ghost var spine: seq<Node>

    ghost predicate Valid()
      reads this, spine
    {
      && head == (if spine == [] then null else spine[0])
      && (forall i | 0 <= i < |spine| - 1 :: spine[i].next == spine[i + 1])
      && (spine != [] ==> spine[|spine| - 1].next == null)
      && (forall i, j | 0 <= i < j < |spine| :: spine[i] != spine[j])
    }

    ghost function Entries(): (es: seq<Entry>)
      reads this, spine
      ensures |es| == |spine|
    {
      seq(|spine|, i requires 0 <= i < |spine| reads this, spine =>
        Entry(spine[i].address, spine[i].netmask, spine[i].route))
    }

    lemma Successor(i: nat)
      requires Valid() && i < |spine|
      ensures spine[i].next == if i + 1 < |spine| then spine[i + 1] else null
    {
    }

    constructor ()
      ensures Valid() && Entries() == [] && spine == []
    {
      head, spine := null, [];
    }

    /** csp_rtable_find. */
    method Find(address: nat, mask: nat, exact: bool) returns (result: Node?)
      requires Valid()
      ensures var k := Routes.Find(Entries(), address, mask, exact);
              result == if k < |spine| then spine[k] else null
    {
      hide Covers;
      result := null;
      var bestMask: nat := 0;
      var node := head;
      ghost var i: nat := 0;
      ghost var best: nat := |spine|;
      ghost var es := Entries();
      while node != null
        invariant i <= |spine| && best <= |spine|
        invariant node == (if i < |spine| then spine[i] else null)
        invariant result == (if best < |spine| then spine[best] else null)
        invariant Scan(es, address, mask, exact, 0, |es|, 0) == Scan(es, address, mask, exact, i, best, bestMask)
        decreases |spine| - i
      {
        if node.address == address && node.netmask == mask {
          result := node;
          break;
        }
        if !exact {
          if node.address / NetSize(node.netmask) == address / NetSize(node.netmask) {
            CoversIs(es[i], address);
            if node.netmask >= bestMask {
              result, best := node, i;
              bestMask := node.netmask;
            }
          } else {
            CoversIs(es[i], address);
          }
        }
        Successor(i);
        node := node.next;
        i := i + 1;
      }
    }

    /** csp_rtable_find_route. */
    method FindRoute(dest: nat) returns (r: Option<Route>)
      requires Valid()
      ensures r == Lookup(Entries(), dest)
    {
      hide Scan;
      var entry := Find(dest, HOST_SIZE, false);
      r := if entry != null then Some(entry.route) else None;
    }

    /** csp_rtable_set_internal. */
    method SetInternal(address: nat, mask: nat, route: Route, memory: bool) returns (result: Result)
      requires Valid()
      modifies this, spine
      ensures Valid() && fresh(set n | n in spine && n !in old(spine))
      ensures var e, es := Entry(address, mask, route), old(Entries());
              if !memory && Routes.Find(es, address, mask, true) == |es| then result == NoMem && Entries() == es
              else result == NoError && Entries() == Put(es, e)
    {
      hide Scan;
      var entry := Find(address, mask, true);
      ghost var k := Routes.Find(Entries(), address, mask, true);
      if entry == null {
        if !memory {
          return NoMem;
        }
        entry := new Node(address, mask, route);
        Append(entry);
        return NoError;
      }
      entry.address, entry.netmask, entry.route := address, mask, route;
      assert Entries() == old(Entries())[k := Entry(address, mask, route)];
      return NoError;
    }

    /** Walking to the end of the list and hanging on the new entry. */
    method Append(entry: Node)
      requires Valid() && entry !in spine && entry.next == null
      modifies this, spine
      ensures Valid() && spine == old(spine) + [entry]
      ensures Entries() == old(Entries()) + [Entry(entry.address, entry.netmask, entry.route)]
    {
      if head == null {
        head := entry;
      } else {
        var node := head;
        ghost var i: nat := 0;
        while node.next != null
          invariant i < |spine| && node == spine[i]
          invariant spine == old(spine) && Valid() && Entries() == old(Entries()) && entry.next == null
          decreases |spine| - i
        {
          Successor(i);
          node := node.next;
          i := i + 1;
        }
        Successor(i);
        assert i == |spine| - 1;
        node.next := entry;
      }
      spine := spine + [entry];
    }

    /** csp_rtable_set. */
    method Set(call: SetCall) returns (result: Result)
      requires Valid()
      modifies this, spine
      ensures Valid() && fresh(set n | n in spine && n !in old(spine))
      ensures Entries() == Routes.Set(old(Entries()), call)
      ensures result == Inval <==> Asked(call).None?
    {
      hide Put, Routes.Find;
      var address, mask := call.address, call.mask;
      if address == DEFAULT_ROUTE {
        mask := 0;
        address := 0;
      }
      if (address > HOST_MAX && address != 255) || call.iface.None? || mask > HOST_SIZE {
        return Inval;
      }
      result := SetInternal(address, mask, Route(call.iface.value, call.via), call.memory);
    }
  }

  lemma CoversIs(e: Entry, address: nat)
    ensures Covers(e, address) <==> e.address / NetSize(e.mask) == address / NetSize(e.mask)
  {
  }

  class StaticTable {
    const slots: array<Option<Route>>

    ghost predicate Valid()
      reads slots
    {
      slots.Length == DEFAULT_ROUTE + 1
    }

    constructor ()
      ensures Valid() && slots[..] == SetAllSlots([])
    {
      slots := new Option<Route>[DEFAULT_ROUTE + 1](i => None);
      new;
      assert slots[..] == seq(33, i => None);
    }

    /** csp_rtable_find_route. */
    method FindRoute(dest: nat) returns (r: Option<Route>)
      requires Valid() && dest <= DEFAULT_ROUTE
      ensures r == LookupSlot(slots[..], dest)
    {
      if slots[dest].Some? {
        return slots[dest];
      }
      if slots[DEFAULT_ROUTE].Some? {
        return slots[DEFAULT_ROUTE];
      }
      return None;
    }

    /** csp_rtable_set, for every call whose write stays inside the array. */
    method Set(call: SetCall) returns (result: Result)
      requires Valid() && HasPlace(call)
      modifies slots
      ensures Valid() && slots[..] == SetSlot(old(slots[..]), call)
      ensures result == if Written(call).None? then Inval else NoError
    {
      var address, mask := call.address, call.mask;
      if address == DEFAULT_ROUTE {
        mask := 0;
        address := 0;
      }
      if (address > HOST_MAX && address != 255) || call.iface.None? || mask > HOST_SIZE {
        return Inval;
      }
      if mask != 0 && mask != HOST_SIZE {
        return Inval;
      }
      var ri := if mask == 0 then DEFAULT_ROUTE else address;
      slots[ri] := Some(Route(call.iface.value, call.via));
      return NoError;
    }
  }
}
