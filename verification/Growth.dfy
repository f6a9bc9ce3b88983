/** autoScaleAppend: a string that triples its capacity when it has to grow, up to a maximum size. */
module Growth {
  import opened Bytes

  const MIN_MAX_SIZE := 65535

  /** setMaxBufferSize: the maximum is never set below 65535. */
  function MaxSize(requested: nat): (size: nat)
    ensures size == if requested < 65535 then 65535 else requested
  {
    if requested < MIN_MAX_SIZE then MIN_MAX_SIZE else requested
  }

  /** At most `max` bytes. */
  function Capped(s: seq<Byte>, max: nat): (t: seq<Byte>)
    ensures t <= s && |t| == if |s| <= max then |s| else max
  {
    if |s| <= max then s else s[..max]
  }

  lemma CappedAppend(s: seq<Byte>, t: seq<Byte>, max: nat)
    ensures Capped(Capped(s, max) + t, max) == Capped(s + t, max)
  {
    if |s| > max {
      assert (s[..max] + t)[..max] == s[..max] == (s + t)[..max];
    }
  }

  class ScalingString {
    const max: nat
    var contents: seq<Byte>
    var capacity: nat
    /** The bytes that reallocations have moved so far. */
    ghost var moved: nat

    constructor (requested: nat, capacity: nat)
      requires capacity <= MaxSize(requested)
      ensures Valid() && contents == [] && max == MaxSize(requested) && this.capacity == capacity && moved == 0
    {
      this.max, this.capacity, contents, moved := MaxSize(requested), capacity, [], 0;
    }

    /** The contents fit, and moving them has cost little against the room they have now. */
    predicate Fits()
      reads this
    {
      |contents| <= capacity <= max
    }

    ghost predicate Valid()
      reads this
    {
      && Fits()
      && 2 * moved <= 3 * capacity
      && (capacity < max ==> 2 * moved <= capacity)
    }

    /** clear */
    method Clear()
      requires Valid()
      modifies `contents
      ensures Valid() && contents == []
    {
      contents := [];
    }

    /** reserve, taken to allocate exactly what it is asked for: the contents are moved if the capacity grows. */
    method Reserve(cap: nat)
      requires Fits() && cap <= max
      modifies `capacity, `moved
      ensures Fits() && capacity == if cap > old(capacity) then cap else old(capacity)
      ensures moved == if cap > old(capacity) then old(moved) + |contents| else old(moved)
    {
      if cap > capacity {
        capacity := cap;
        moved := moved + |contents|;
      }
    }

    /**
     * autoScaleAppend: what does not fit under the maximum is cut off. Every reallocation at least triples the
     * capacity or takes it to the maximum, so that over any number of calls what is moved stays in proportion.
     */
    method Append(s: seq<Byte>)
      requires Valid()
      modifies this
      ensures Valid() && contents == Capped(old(contents) + s, max)
      ensures capacity == old(capacity) || capacity == max || capacity >= 3 * old(capacity)
    {
      var len := |s|;
      var cap, siz := capacity, |contents|;
      var rem := cap - siz;
      if len > rem {
        if cap <= max / 3 {
          cap := cap * 3;
        } else {
          cap := max;
        }
        rem := cap - siz;
        if len > rem {
          rem := max - siz;
          if len > rem {
            len := rem;
            if len == 0 {
              return;
            }
          }
          cap := siz + len;
        }
        Reserve(cap);
      }
      contents := contents + s[..len];
    }
  }
}
