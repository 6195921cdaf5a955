/** The memory budget of prepared bodies (internal/server/prepared_body_budget.go) and its
    one user, compileBody (internal/server/prepared_compile.go), over 64-bit integers. */
module BodyBudget {
  import opened Basics

  newtype int64 = x: int | -0x8000_0000_0000_0000 <= x < 0x8000_0000_0000_0000

  /** What a body of this size is charged: at least one byte. */
  function Cost(size: int64): (cost: int64)
    ensures cost >= 1 && cost >= size && (cost == 1 || cost == size)
  {
    if size <= 0 then 1 else size
  }

  /** A prepared body: its length, and what it is charged. */
  datatype Held = Held(length: int64, charge: int64)

  function Charged(held: seq<Held>): int {
    if held == [] then 0 else Charged(held[..|held| - 1]) + held[|held| - 1].charge as int
  }

  function Stored(held: seq<Held>): int {
    if held == [] then 0 else Stored(held[..|held| - 1]) + held[|held| - 1].length as int
  }

  lemma HoldOne(held: seq<Held>, one: Held)
    ensures Charged(held + [one]) == Charged(held) + one.charge as int
  {
    assert (held + [one])[..|held|] == held;
  }

  lemma {:induction false} ChargedIsPositive(held: seq<Held>)
    requires forall h :: h in held ==> h.charge == Cost(h.length)
    ensures 0 <= Charged(held) && Stored(held) <= Charged(held)
  {
    if held != [] {
      ChargedIsPositive(held[..|held| - 1]);
      assert held[|held| - 1] in held;
    }
  }

  class PreparedBodyBudget {
    const max: int64
    var used: int64

    ghost predicate Valid()
      reads this
    {
      0 <= used && (used == 0 || used <= max)
    }

    constructor (max: int64)
      ensures this.max == max && used == 0 && Valid()
    {
      this.max, used := max, 0;
    }

    /** Grants a reservation exactly when it still fits. */
    method Reserve(size: int64) returns (reserved: int64, ok: bool)
      requires Valid()
      modifies `used
      ensures Valid()
      ensures ok <==> max > 0 && size >= 0 && old(used) as int + Cost(size) as int <= max as int
      ensures ok ==> reserved == Cost(size) && used == old(used) + reserved
      ensures !ok ==> reserved == 0 && used == old(used)
    {
      if max <= 0 || size < 0 {
        return 0, false;
      }
      reserved := Cost(size);
      if used > max - reserved {
        return 0, false;
      }
      used := used + reserved;
      ok := true;
    }

    method Release(size: int64)
      requires Valid()
      modifies `used
      ensures Valid()
      ensures used == if size <= 0 then old(used) else if old(used) < size then 0 else old(used) - size
    {
      if size <= 0 {
        return;
      }
      used := used - size;
      if used < 0 {
        used := 0;
      }
    }

    /** Swaps a reservation for the actual cost, or gives the whole reservation back. Only
        what was reserved can be adjusted. */
    method Adjust(reserved: int64, actual: int64) returns (ok: bool)
      requires Valid() && reserved <= used
      modifies `used
      ensures Valid()
      ensures reserved <= 0 ==> !ok && used == old(used)
      ensures reserved > 0 ==> (ok <==> old(used) as int - reserved as int + Cost(actual) as int <= max as int)
      ensures reserved > 0 ==> used == if ok then old(used) - reserved + Cost(actual) else old(used) - reserved
    {
      if reserved <= 0 {
        return false;
      }
      var cost := Cost(actual);
      if cost == reserved {
        return true;
      }
      if cost < reserved {
        Release(reserved - cost);
        return true;
      }
      var extra := cost - reserved;
      if used > max - extra {
        Release(reserved);
        return false;
      }
      used := used + extra;
      ok := true;
    }

    /** The budget is the sum of what the prepared bodies are charged. */
    ghost predicate Holds(held: seq<Held>)
      reads this
    {
      && Valid()
      && used as int == Charged(held)
      && forall h :: h in held ==> h.charge == Cost(h.length)
    }

    /** compileBody: serve is the memory policy's answer, size what the catalog says, body
        the length actually read, or None when the read fails. The body is kept exactly
        when both the announced and the actual size fit beside the bodies held already. */
    method CompileBody(serve: bool, size: int64, body: Option<int64>, ghost held: seq<Held>) returns (prepared: Option<Held>)
      requires Holds(held)
      requires body.Some? ==> body.value >= 0
      modifies `used
      ensures prepared.Some? <==>
                && serve && max > 0 && size >= 0 && body.Some?
                && Charged(held) + Cost(size) as int <= max as int
                && Charged(held) + Cost(body.value) as int <= max as int
      ensures prepared.Some? ==> prepared.value == Held(body.value, Cost(body.value))
      ensures Holds(if prepared.Some? then held + [prepared.value] else held)
    {
      if !serve {
        return None;
      }
      var reserved, ok := Reserve(size);
      if !ok {
        return None;
      }
      if body == None {
        Release(reserved);
        return None;
      }
      var fits := Adjust(reserved, body.value);
      if !fits {
        return None;
      }
      HoldOne(held, Held(body.value, Cost(body.value)));
      prepared := Some(Held(body.value, Cost(body.value)));
    }
  }

  /** Whatever bodies a compilation prepares, in whatever order, their bytes together stay
      within the budget. */
  lemma BodiesFitTheBudget(budget: PreparedBodyBudget, held: seq<Held>)
    requires budget.Holds(held)
    ensures Stored(held) <= Charged(held) == budget.used as int
    ensures held != [] ==> Stored(held) <= budget.max as int
  {
    ChargedIsPositive(held);
    if held != [] {
      ChargedIsPositive(held[..|held| - 1]);
      assert held[|held| - 1] in held;
    }
  }
}
