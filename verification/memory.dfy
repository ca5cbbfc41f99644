/** The simulated data memory: a sparse list of (address, value) cells searched
    linearly, where an address that was never written reads as 0. */
module Memory {

  datatype Cell = Cell(addr: int, value: int)

  type Mem = seq<Cell>

  /** True if some cell of `m` holds address `a`. */
  predicate Holds(m: Mem, a: int) {
    exists i :: 0 <= i < |m| && m[i].addr == a
  }

  /** No address occurs in two cells. */
  predicate Distinct(m: Mem) {
    forall i, j :: 0 <= i < j < |m| ==> m[i].addr != m[j].addr
  }

  /** The value stored at `a`; the first matching cell wins, and 0 if none matches. */
  function Read(m: Mem, a: int): (v: int)
    ensures !Holds(m, a) ==> v == 0
    ensures v != 0 ==> exists i :: 0 <= i < |m| && m[i].addr == a && m[i].value == v
  {
    if |m| == 0 then 0
    else if m[0].addr == a then m[0].value
    else
      var v := Read(m[1..], a);
      assert v != 0 ==> exists i :: 1 <= i < |m| && m[i].addr == a && m[i].value == v by {
        if v != 0 {
          var i :| 0 <= i < |m[1..]| && m[1..][i].addr == a && m[1..][i].value == v;
          assert m[i + 1] == m[1..][i];
        }
      }
      v
  }

  /** Overwrites the first cell holding `a`, or appends a new cell when there is none. */
  function Write(m: Mem, a: int, v: int): (m': Mem)
    ensures Holds(m, a) ==> |m'| == |m|
    ensures !Holds(m, a) ==> |m'| == |m| + 1
    ensures Holds(m', a)
  {
    if |m| == 0 then
      assert [Cell(a, v)][0].addr == a;
      [Cell(a, v)]
    else if m[0].addr == a then
      assert ([Cell(a, v)] + m[1..])[0].addr == a;
      [Cell(a, v)] + m[1..]
    else
      var rest := Write(m[1..], a, v);
      assert Holds(m, a) <==> Holds(m[1..], a) by {
        if Holds(m, a) {
          var i :| 0 <= i < |m| && m[i].addr == a;
          assert i > 0 && m[1..][i - 1] == m[i];
        }
        if Holds(m[1..], a) {
          var i :| 0 <= i < |m[1..]| && m[1..][i].addr == a;
          assert m[i + 1] == m[1..][i];
        }
      }
      var i :| 0 <= i < |rest| && rest[i].addr == a;
      assert ([m[0]] + rest)[i + 1] == rest[i];
      [m[0]] + rest
  }

  /** The memory before any store commits. */
  const Empty: Mem := []

  /** A read of the address just written yields the written value. */
  lemma {:induction false} ReadAfterWrite(m: Mem, a: int, v: int)
    ensures Read(Write(m, a, v), a) == v
  {
    if |m| == 0 || m[0].addr == a {
    } else {
      ReadAfterWrite(m[1..], a, v);
      assert Write(m, a, v)[1..] == Write(m[1..], a, v);
    }
  }

  /** Writing `a` leaves every other address reading as before. */
  lemma {:induction false} ReadOtherAfterWrite(m: Mem, a: int, v: int, b: int)
    requires b != a
    ensures Read(Write(m, a, v), b) == Read(m, b)
  {
    if |m| == 0 || m[0].addr == a {
      if |m| > 0 {
        assert Write(m, a, v)[1..] == m[1..];
      }
    } else {
      ReadOtherAfterWrite(m[1..], a, v, b);
      assert Write(m, a, v)[1..] == Write(m[1..], a, v);
    }
  }

  /** The cells after a write hold exactly the old addresses plus `a`. */
  lemma {:induction false} WriteAddresses(m: Mem, a: int, v: int, b: int)
    ensures Holds(Write(m, a, v), b) <==> Holds(m, b) || b == a
  {
    var w := Write(m, a, v);
    if |m| == 0 {
    } else if m[0].addr == a {
      if Holds(m, b) {
        var i :| 0 <= i < |m| && m[i].addr == b;
        assert w[i].addr == b;
      }
      if Holds(w, b) {
        var i :| 0 <= i < |w| && w[i].addr == b;
        assert m[i].addr == b;
      }
    } else {
      WriteAddresses(m[1..], a, v, b);
      var rest := Write(m[1..], a, v);
      assert w == [m[0]] + rest;
      if Holds(m, b) {
        var i :| 0 <= i < |m| && m[i].addr == b;
        if i > 0 {
          assert m[1..][i - 1].addr == b;
          var k :| 0 <= k < |rest| && rest[k].addr == b;
          assert w[k + 1].addr == b;
        } else {
          assert w[0].addr == b;
        }
      }
      if b == a {
        var k :| 0 <= k < |rest| && rest[k].addr == b;
        assert w[k + 1].addr == b;
      }
      if Holds(w, b) {
        var i :| 0 <= i < |w| && w[i].addr == b;
        if i > 0 {
          assert rest[i - 1].addr == b;
          if b != a {
            var k :| 0 <= k < |m[1..]| && m[1..][k].addr == b;
            assert m[k + 1].addr == b;
          }
        }
      }
    }
  }

  /** Rewriting an address never creates a second cell for it. */
  lemma {:induction false} WriteKeepsDistinct(m: Mem, a: int, v: int)
    requires Distinct(m)
    ensures Distinct(Write(m, a, v))
  {
    var w := Write(m, a, v);
    if |m| == 0 {
    } else if m[0].addr == a {
      forall i, j | 0 <= i < j < |w|
        ensures w[i].addr != w[j].addr
      {
        assert m[i].addr == w[i].addr && m[j].addr == w[j].addr;
      }
    } else {
      var rest := Write(m[1..], a, v);
      WriteKeepsDistinct(m[1..], a, v);
      assert w == [m[0]] + rest;
      assert !Holds(m[1..], m[0].addr) by {
        forall k | 0 <= k < |m[1..]|
          ensures m[1..][k].addr != m[0].addr
        {
          assert m[1..][k] == m[k + 1];
        }
      }
      WriteAddresses(m[1..], a, v, m[0].addr);
      assert !Holds(rest, m[0].addr);
      forall i, j | 0 <= i < j < |w|
        ensures w[i].addr != w[j].addr
      {
        if i == 0 {
          assert w[j] == rest[j - 1];
        } else {
          assert w[i] == rest[i - 1] && w[j] == rest[j - 1];
        }
      }
    }
  }
}
