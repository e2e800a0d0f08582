/** The append-only hash chain of the shared logs. */
module HashChain {
  // The conversation bridge, the sandbox operation store and the knowledge lattice all keep it: every row
  // carries the hash of the row before it and a hash over everything in it. The hash is a parameter;
  // nothing is assumed of it, and where collisions would matter the lemma says so.

  datatype Link<P> = Link(body: P, prev: string, hash: string)

  /** Hash of a row's fields other than `hash`. */
  type Hasher<!P> = (P, string) -> string

  const GENESIS := "GENESIS"

  /** The hash the next row must name: the last row's, recomputed when the row lacks one. */
  function TailHash<P>(h: Hasher<P>, rows: seq<Link<P>>): string {
    if rows == [] then GENESIS
    else
      var last := rows[|rows| - 1];
      if last.hash != "" then last.hash else h(last.body, last.prev)
  }

  /** The row a writer appends. */
  function Sealed<P>(h: Hasher<P>, rows: seq<Link<P>>, body: P): Link<P> {
    var prev := TailHash(h, rows);
    Link(body, prev, h(body, prev))
  }

  /** What a verifier accepts: links and hashes right, row by row from GENESIS. */
  predicate Chained<P(==)>(h: Hasher<P>, rows: seq<Link<P>>)
    decreases rows
  {
    rows == [] ||
    var n := |rows| - 1;
    Chained(h, rows[..n]) && rows[n].prev == EndHash(rows[..n]) && rows[n].hash == h(rows[n].body, rows[n].prev)
  }

  /** The `prev_hash` a verifier expects after these rows. */
  function EndHash<P>(rows: seq<Link<P>>): string {
    if rows == [] then GENESIS else rows[|rows| - 1].hash
  }

  /** Where the last row's hash is right or missing, the next row names its recomputed hash. */
  lemma TailIsRecomputed<P>(h: Hasher<P>, rows: seq<Link<P>>)
    requires rows != [] && var last := rows[|rows| - 1]; last.hash == "" || last.hash == h(last.body, last.prev)
    ensures var last := rows[|rows| - 1]; TailHash(h, rows) == h(last.body, last.prev)
  {
  }

  lemma AppendStaysChained<P>(h: Hasher<P>, rows: seq<Link<P>>, body: P)
    requires Chained(h, rows)
    ensures Chained(h, rows + [Sealed(h, rows, body)])
  {
    assert (rows + [Sealed(h, rows, body)])[..|rows|] == rows;
  }

  lemma {:induction false} ChainedPrefix<P>(h: Hasher<P>, rows: seq<Link<P>>, k: nat)
    requires Chained(h, rows) && k <= |rows|
    ensures Chained(h, rows[..k])
    decreases |rows|
  {
    if k < |rows| {
      ChainedPrefix(h, rows[..|rows| - 1], k);
      assert rows[..|rows| - 1][..k] == rows[..k];
    } else {
      assert rows[..k] == rows;
    }
  }

  /**
   A collision among the rows at hand: a row of one log and a different row of the other with one hash, or a row
   that hashes to the starting word.
   */
  ghost predicate Clash<P>(h: Hasher<P>, a: seq<Link<P>>, b: seq<Link<P>>) {
    || (exists i, j :: 0 <= i < |a| && 0 <= j < |b| && OneHash(h, a[i], b[j]))
    || (exists i :: 0 <= i < |a| && h(a[i].body, a[i].prev) == GENESIS)
    || (exists j :: 0 <= j < |b| && h(b[j].body, b[j].prev) == GENESIS)
  }

  ghost predicate OneHash<P>(h: Hasher<P>, x: Link<P>, y: Link<P>) {
    (x.body, x.prev) != (y.body, y.prev) && h(x.body, x.prev) == h(y.body, y.prev)
  }

  lemma ClashOfPrefixes<P>(h: Hasher<P>, a: seq<Link<P>>, b: seq<Link<P>>)
    requires a != [] && b != [] && Clash(h, a[..|a| - 1], b[..|b| - 1])
    ensures Clash(h, a, b)
  {
    var p, q := a[..|a| - 1], b[..|b| - 1];
    if i, j :| 0 <= i < |p| && 0 <= j < |q| && OneHash(h, p[i], q[j]) {
      assert OneHash(h, a[i], b[j]);
    } else if i :| 0 <= i < |p| && h(p[i].body, p[i].prev) == GENESIS {
      assert h(a[i].body, a[i].prev) == GENESIS;
    } else {
      var j :| 0 <= j < |q| && h(q[j].body, q[j].prev) == GENESIS;
      assert h(b[j].body, b[j].prev) == GENESIS;
    }
  }

  /**
   The last hash pins the whole log: two accepted logs that end in the same hash are one log, unless rows of
   theirs collide.
   */
  lemma {:induction false} LastHashPinsLog<P>(h: Hasher<P>, a: seq<Link<P>>, b: seq<Link<P>>)
    requires Chained(h, a) && Chained(h, b) && EndHash(a) == EndHash(b)
    ensures a == b || Clash(h, a, b)
    decreases |a| + |b|
  {
    if a != [] && b != [] {
      var x, y := a[|a| - 1], b[|b| - 1];
      if (x.body, x.prev) == (y.body, y.prev) {
        LastHashPinsLog(h, a[..|a| - 1], b[..|b| - 1]);
        if Clash(h, a[..|a| - 1], b[..|b| - 1]) { ClashOfPrefixes(h, a, b); }
        assert a == a[..|a| - 1] + [x] && b == b[..|b| - 1] + [y];
      } else {
        assert OneHash(h, x, y);
      }
    } else if a != [] {
      assert h(a[|a| - 1].body, a[|a| - 1].prev) == GENESIS;
    } else if b != [] {
      assert h(b[|b| - 1].body, b[|b| - 1].prev) == GENESIS;
    }
  }
}
