/** Model of `usu::shared_ptr`: a handle to a heap object together with a heap
    counter shared by every handle to that object. Copying a handle increments the
    counter, releasing one decrements it and frees the object and the counter when it
    reaches zero, and moving swaps two handles' contents. The `T[]` specialisation
    also carries the array's length.

    Each counter keeps, as ghost state, the multiset of handles that hold it; the
    invariant of the model is that the counter equals the size of that multiset.
 */
module SmartPointer {

  /** An object (or array) on the heap, as far as freeing is concerned. */
  class Allocation {
    var freed: bool

    constructor ()
      ensures !freed
    {
      freed := false;
    }
  }

  /** The heap `std::size_t` a group of handles shares. */
  class RefCount {
    var count: nat
    var live: bool
    ghost var owners: multiset<object>

    /** The counter tells how many handles hold it. */
    ghost predicate Valid()
      reads this
    {
      count == |owners|
    }

    constructor (owner: object)
      ensures count == 1 && live && owners == multiset{owner}
      ensures Valid()
    {
      count := 1;
      live := true;
      owners := multiset{owner};
    }
  }

  /** Two different handles holding one counter make it at least two. */
  lemma TwoOwners(c: RefCount, a: object, b: object)
    requires c.Valid() && a in c.owners && b in c.owners && a != b
    ensures c.count >= 2
  {
    var rest := c.owners - multiset{a};
    assert b in rest;
    assert |c.owners| == |rest| + 1;
  }

  /** `shared_ptr<T>`. */
  class SharedPtr {
    var rawPtr: Allocation?
    var refCount: RefCount?

    /** The handle holds a live counter that counts it. */
    ghost predicate Owns()
      reads this, refCount
    {
      refCount != null && refCount.live && this in refCount.owners && refCount.Valid()
    }

    /** `shared_ptr(T* rawPtr)`: a fresh counter set to 1. */
    constructor (rawPtr: Allocation?)
      ensures this.rawPtr == rawPtr
      ensures fresh(refCount) && refCount.count == 1 && refCount.owners == multiset{this}
      ensures Owns()
    {
      this.rawPtr := rawPtr;
      new;
      refCount := new RefCount(this);
    }

    /** The copy constructor: starts empty, then copy-assigns from `other`. */
    constructor Copy(other: SharedPtr)
      requires other.Owns()
      modifies other.refCount
      ensures rawPtr == other.rawPtr && refCount == other.refCount
      ensures refCount.count == old(other.refCount.count) + 1
      ensures refCount.owners == old(other.refCount.owners) + multiset{this}
      ensures Owns() && other.Owns()
    {
      rawPtr := null;
      refCount := null;
      new;
      CopyAssign(other);
    }

    /** The move constructor: `other` is a named reference inside it, so `*this = other`
        selects the copy assignment and the count goes up as for a copy. */
    constructor Move(other: SharedPtr)
      requires other.Owns()
      modifies other.refCount
      ensures rawPtr == other.rawPtr && refCount == other.refCount
      ensures refCount.count == old(other.refCount.count) + 1
      ensures refCount.owners == old(other.refCount.owners) + multiset{this}
      ensures Owns() && other.Owns()
    {
      rawPtr := null;
      refCount := null;
      new;
      CopyAssign(other);
    }

    /** `use_count()`: the number of handles sharing the counter. */
    function UseCount(): (n: nat)
      reads this, refCount
      requires refCount != null
      ensures Owns() ==> n == |refCount.owners| && n >= 1
    {
      refCount.count
    }

    /** `cleanup()` (and the destructor): gives up this handle's share. The counter
        drops by one; at zero the object and the counter are freed, otherwise nothing
        is freed. A handle without a counter does nothing. */
    method Cleanup()
      requires refCount != null ==> Owns()
      modifies refCount, rawPtr
      ensures old(refCount) == null ==> rawPtr != null ==> rawPtr.freed == old(rawPtr.freed)
      ensures refCount != null ==>
        refCount.count == old(refCount.count) - 1 &&
        refCount.owners == old(refCount.owners) - multiset{this} &&
        refCount.Valid() &&
        refCount.live == (refCount.count > 0)
      ensures refCount != null && rawPtr != null ==>
        rawPtr.freed == (old(rawPtr.freed) || refCount.count == 0)
    {
      if refCount != null {
        refCount.count := refCount.count - 1;
        refCount.owners := refCount.owners - multiset{this};
        if refCount.count == 0 {
          if rawPtr != null {
            rawPtr.freed := true;
          }
          refCount.live := false;
        }
      }
    }

    /** Copy assignment: unless `rhs` is this very handle, releases the current share
        and then shares `rhs`'s object and counter, incrementing it. */
    method CopyAssign(rhs: SharedPtr)
      requires rhs.Owns()
      requires refCount != null ==> Owns()
      modifies this, refCount, rawPtr, rhs.refCount
      ensures rhs == this ==>
        rawPtr == old(rawPtr) && refCount == old(refCount) &&
        refCount.count == old(refCount.count) && refCount.owners == old(refCount.owners) &&
        (rawPtr != null ==> rawPtr.freed == old(rawPtr.freed))
      ensures rhs != this ==>
        rhs.rawPtr == old(rhs.rawPtr) && rhs.refCount == old(rhs.refCount) &&
        rawPtr == rhs.rawPtr && refCount == rhs.refCount &&
        refCount.count == old(rhs.refCount.count) + (if old(refCount) == rhs.refCount then 0 else 1) &&
        (old(refCount) != rhs.refCount ==> refCount.owners == old(rhs.refCount.owners) + multiset{this}) &&
        Owns() && rhs.Owns() && UseCount() == rhs.UseCount()
      ensures rhs != this && old(refCount) != null && old(refCount) != refCount ==>
        old(refCount).count == old(refCount.count) - 1 &&
        old(refCount).owners == old(refCount.owners) - multiset{this} &&
        old(refCount).Valid() &&
        old(refCount).live == (old(refCount).count > 0)
      ensures rhs != this && old(refCount) != null && old(rawPtr) != null ==>
        old(rawPtr).freed == (old(rawPtr.freed) || (old(refCount) != rhs.refCount && old(refCount.count) == 1))
      ensures (rhs == this || old(refCount) == null) && old(rawPtr) != null ==>
        old(rawPtr).freed == old(rawPtr.freed)
    {
      if this != rhs {
        if refCount == rhs.refCount {
          TwoOwners(refCount, this, rhs);
        }
        Cleanup();
        Share(rhs);
      }
    }

    /** The second half of copy assignment: take `rhs`'s object and counter and count
        this handle in. */
    method Share(rhs: SharedPtr)
      requires rhs.Owns() && rhs != this
      modifies this, rhs.refCount
      ensures rawPtr == rhs.rawPtr && refCount == rhs.refCount
      ensures refCount.count == old(rhs.refCount.count) + 1
      ensures refCount.owners == old(rhs.refCount.owners) + multiset{this}
      ensures Owns() && rhs.Owns()
    {
      rawPtr := rhs.rawPtr;
      refCount := rhs.refCount;
      refCount.count := refCount.count + 1;
      refCount.owners := refCount.owners + multiset{this};
    }

    /** Move assignment: swaps the object and the counter with `rhs`; no count changes.
        Only the ghost record of who holds which counter is updated. */
    method MoveAssign(rhs: SharedPtr)
      requires refCount != null ==> Owns()
      requires rhs.refCount != null ==> rhs.Owns()
      modifies this, rhs, refCount, rhs.refCount
      ensures rawPtr == old(rhs.rawPtr) && rhs.rawPtr == old(rawPtr)
      ensures refCount == old(rhs.refCount) && rhs.refCount == old(refCount)
      ensures refCount != null ==> refCount.count == old(rhs.refCount.count) && Owns()
      ensures rhs.refCount != null ==> rhs.refCount.count == old(refCount.count) && rhs.Owns()
    {
      if refCount != rhs.refCount {
        if refCount != null {
          refCount.owners := refCount.owners - multiset{this} + multiset{rhs};
        }
        if rhs.refCount != null {
          rhs.refCount.owners := rhs.refCount.owners - multiset{rhs} + multiset{this};
        }
      }
      rawPtr, rhs.rawPtr := rhs.rawPtr, rawPtr;
      refCount, rhs.refCount := rhs.refCount, refCount;
    }
  }

  /** `shared_ptr<T[]>`: as `shared_ptr<T>`, plus the array's length. */
  class SharedArray {
    var rawPtr: Allocation?
    var arrSize: nat
    var refCount: RefCount?

    /** The handle holds a live counter that counts it. */
    ghost predicate Owns()
      reads this, refCount
    {
      refCount != null && refCount.live && this in refCount.owners && refCount.Valid()
    }

    /** `shared_ptr(T* rawPtr, std::size_t arrSize)`: a fresh counter set to 1. */
    constructor (rawPtr: Allocation?, arrSize: nat)
      ensures this.rawPtr == rawPtr && this.arrSize == arrSize
      ensures fresh(refCount) && refCount.count == 1 && refCount.owners == multiset{this}
      ensures Owns()
    {
      this.rawPtr := rawPtr;
      this.arrSize := arrSize;
      new;
      refCount := new RefCount(this);
    }

    /** The copy constructor: starts empty, then copy-assigns from `other`. */
    constructor Copy(other: SharedArray)
      requires other.Owns()
      modifies other.refCount
      ensures rawPtr == other.rawPtr && arrSize == other.arrSize && refCount == other.refCount
      ensures refCount.count == old(other.refCount.count) + 1
      ensures refCount.owners == old(other.refCount.owners) + multiset{this}
      ensures Owns() && other.Owns()
    {
      rawPtr := null;
      arrSize := 0;
      refCount := null;
      new;
      CopyAssign(other);
    }

    /** The move constructor: `other` is a named reference inside it, so `*this = other`
        selects the copy assignment and the count goes up as for a copy. */
    constructor Move(other: SharedArray)
      requires other.Owns()
      modifies other.refCount
      ensures rawPtr == other.rawPtr && arrSize == other.arrSize && refCount == other.refCount
      ensures refCount.count == old(other.refCount.count) + 1
      ensures refCount.owners == old(other.refCount.owners) + multiset{this}
      ensures Owns() && other.Owns()
    {
      rawPtr := null;
      arrSize := 0;
      refCount := null;
      new;
      CopyAssign(other);
    }

    /** `use_count()`: the number of handles sharing the counter. */
    function UseCount(): (n: nat)
      reads this, refCount
      requires refCount != null
      ensures Owns() ==> n == |refCount.owners| && n >= 1
    {
      refCount.count
    }

    /** `size()`: the length given when the array was allocated. */
    function Size(): nat
      reads this
    {
      arrSize
    }

    /** `cleanup()` (and the destructor): gives up this handle's share. The counter
        drops by one; at zero the object and the counter are freed, otherwise nothing
        is freed. A handle without a counter does nothing. */
    method Cleanup()
      requires refCount != null ==> Owns()
      modifies refCount, rawPtr
      ensures old(refCount) == null ==> rawPtr != null ==> rawPtr.freed == old(rawPtr.freed)
      ensures refCount != null ==>
        refCount.count == old(refCount.count) - 1 &&
        refCount.owners == old(refCount.owners) - multiset{this} &&
        refCount.Valid() &&
        refCount.live == (refCount.count > 0)
      ensures refCount != null && rawPtr != null ==>
        rawPtr.freed == (old(rawPtr.freed) || refCount.count == 0)
    {
      if refCount != null {
        refCount.count := refCount.count - 1;
        refCount.owners := refCount.owners - multiset{this};
        if refCount.count == 0 {
          if rawPtr != null {
            rawPtr.freed := true;
          }
          refCount.live := false;
        }
      }
    }

    /** Copy assignment: unless `rhs` is this very handle, releases the current share
        and then shares `rhs`'s object and counter, incrementing it. */
    method CopyAssign(rhs: SharedArray)
      requires rhs.Owns()
      requires refCount != null ==> Owns()
      modifies this, refCount, rawPtr, rhs.refCount
      ensures rhs == this ==>
        rawPtr == old(rawPtr) && arrSize == old(arrSize) && refCount == old(refCount) &&
        refCount.count == old(refCount.count) && refCount.owners == old(refCount.owners) &&
        (rawPtr != null ==> rawPtr.freed == old(rawPtr.freed))
      ensures rhs != this ==>
        rhs.rawPtr == old(rhs.rawPtr) && rhs.arrSize == old(rhs.arrSize) && rhs.refCount == old(rhs.refCount) &&
        rawPtr == rhs.rawPtr && arrSize == rhs.arrSize && refCount == rhs.refCount &&
        refCount.count == old(rhs.refCount.count) + (if old(refCount) == rhs.refCount then 0 else 1) &&
        (old(refCount) != rhs.refCount ==> refCount.owners == old(rhs.refCount.owners) + multiset{this}) &&
        Owns() && rhs.Owns() && UseCount() == rhs.UseCount()
      ensures rhs != this && old(refCount) != null && old(refCount) != refCount ==>
        old(refCount).count == old(refCount.count) - 1 &&
        old(refCount).owners == old(refCount.owners) - multiset{this} &&
        old(refCount).Valid() &&
        old(refCount).live == (old(refCount).count > 0)
      ensures rhs != this && old(refCount) != null && old(rawPtr) != null ==>
        old(rawPtr).freed == (old(rawPtr.freed) || (old(refCount) != rhs.refCount && old(refCount.count) == 1))
      ensures (rhs == this || old(refCount) == null) && old(rawPtr) != null ==>
        old(rawPtr).freed == old(rawPtr.freed)
    {
      if this != rhs {
        if refCount == rhs.refCount {
          TwoOwners(refCount, this, rhs);
        }
        Cleanup();
        Share(rhs);
      }
    }

    /** The second half of copy assignment: take `rhs`'s object and counter and count
        this handle in. */
    method Share(rhs: SharedArray)
      requires rhs.Owns() && rhs != this
      modifies this, rhs.refCount
      ensures rawPtr == rhs.rawPtr && arrSize == rhs.arrSize && refCount == rhs.refCount
      ensures refCount.count == old(rhs.refCount.count) + 1
      ensures refCount.owners == old(rhs.refCount.owners) + multiset{this}
      ensures Owns() && rhs.Owns()
    {
      rawPtr := rhs.rawPtr;
      arrSize := rhs.arrSize;
      refCount := rhs.refCount;
      refCount.count := refCount.count + 1;
      refCount.owners := refCount.owners + multiset{this};
    }

    /** Move assignment: swaps the object and the counter with `rhs`; no count changes.
        Only the ghost record of who holds which counter is updated. */
    method MoveAssign(rhs: SharedArray)
      requires refCount != null ==> Owns()
      requires rhs.refCount != null ==> rhs.Owns()
      modifies this, rhs, refCount, rhs.refCount
      ensures rawPtr == old(rhs.rawPtr) && rhs.rawPtr == old(rawPtr)
      ensures arrSize == old(rhs.arrSize) && rhs.arrSize == old(arrSize)
      ensures refCount == old(rhs.refCount) && rhs.refCount == old(refCount)
      ensures refCount != null ==> refCount.count == old(rhs.refCount.count) && Owns()
      ensures rhs.refCount != null ==> rhs.refCount.count == old(refCount.count) && rhs.Owns()
    {
      if refCount != rhs.refCount {
        if refCount != null {
          refCount.owners := refCount.owners - multiset{this} + multiset{rhs};
        }
        if rhs.refCount != null {
          rhs.refCount.owners := rhs.refCount.owners - multiset{rhs} + multiset{this};
        }
      }
      rawPtr, rhs.rawPtr := rhs.rawPtr, rawPtr;
      arrSize, rhs.arrSize := rhs.arrSize, arrSize;
      refCount, rhs.refCount := rhs.refCount, refCount;
    }
  }

  /** `make_shared<T>(args...)`: a new object under a new handle with count 1. */
  method MakeShared() returns (p: SharedPtr)
    ensures fresh(p) && fresh(p.rawPtr) && fresh(p.refCount)
    ensures p.rawPtr != null && !p.rawPtr.freed
    ensures p.Owns() && p.UseCount() == 1
  {
    var obj := new Allocation();
    p := new SharedPtr(obj);
  }

  /** The counts a scope of copies goes through: a new handle counts 1, a copy of it
      makes both count 2, and destroying the copy brings the original back to 1
      without freeing the object. */
  method CopyScopeScenario() returns (counts: seq<nat>, freed: bool)
    ensures counts == [1, 2, 2, 1] && !freed
  {
    var p := MakeShared();
    var c0 := p.UseCount();
    var q := new SharedPtr.Copy(p);
    var c1 := p.UseCount();
    var c2 := q.UseCount();
    q.Cleanup();
    var c3 := p.UseCount();
    counts := [c0, c1, c2, c3];
    freed := p.rawPtr.freed;
  }

  /** Passing a handle by value and returning it (`testCopyMoveConstructors`): the
      parameter is a copy (count 2), returning it runs the move constructor, which
      copies (count 3), the parameter dies (count 2), the result is move-assigned back
      and the temporary dies, leaving the original handle at count 1. */
  method PassThroughScenario() returns (inside: nat, final: nat, freed: bool)
    ensures inside == 2 && final == 1 && !freed
  {
    var p := MakeShared();
    var param := new SharedPtr.Copy(p);
    inside := param.UseCount();
    var result := new SharedPtr.Move(param);
    param.Cleanup();
    p.MoveAssign(result);
    result.Cleanup();
    final := p.UseCount();
    freed := p.rawPtr.freed;
  }

  /** `make_shared_array<T, N>()`: a new array of N elements under a new handle with
      count 1 and size N. */
  method MakeSharedArray(n: nat) returns (p: SharedArray)
    ensures fresh(p) && fresh(p.rawPtr) && fresh(p.refCount)
    ensures p.rawPtr != null && !p.rawPtr.freed
    ensures p.Owns() && p.UseCount() == 1 && p.Size() == n
  {
    var block := new Allocation();
    p := new SharedArray(block, n);
  }

  /** A copy of an array handle reports the same size and shares the count; dropping
      the copy leaves the original's size and a count of 1. */
  method ArrayCopyScenario() returns (size: nat, copySize: nat, shared: nat, final: nat)
    ensures size == 4 && copySize == 4 && shared == 2 && final == 1
  {
    var primes := MakeSharedArray(4);
    var copy := new SharedArray.Copy(primes);
    size := primes.Size();
    copySize := copy.Size();
    shared := copy.UseCount();
    copy.Cleanup();
    final := primes.UseCount();
  }
}
