/**
  Paths as sequences of components and components as sequences of code units, with the
  order that `Path` and `str` comparisons use: lexicographic, component by component.
*/
module Paths {
  type Name = seq<char>
  type Path = seq<Name>

  predicate NameLt(a: Name, b: Name) {
    if b == [] then false
    else if a == [] then true
    else if a[0] == b[0] then NameLt(a[1..], b[1..])
    else a[0] < b[0]
  }

  predicate PathLt(a: Path, b: Path)
    decreases |a|
  {
    if b == [] then false
    else if a == [] then true
    else if a[0] == b[0] then PathLt(a[1..], b[1..])
    else NameLt(a[0], b[0])
  }

  lemma {:induction false} NameLtTotal(a: Name, b: Name)
    ensures NameLt(a, b) || NameLt(b, a) || a == b
    ensures !(NameLt(a, b) && NameLt(b, a)) && !NameLt(a, a)
    decreases |a|
  {
    if a != [] {
      NameLtTotal(a[1..], a[1..]);
      if b != [] && a[0] == b[0] {
        NameLtTotal(a[1..], b[1..]);
        assert a == [a[0]] + a[1..] && b == [b[0]] + b[1..];
      }
    }
  }

  lemma {:induction false} NameLtTransitive(a: Name, b: Name, c: Name)
    requires NameLt(a, b) && NameLt(b, c)
    ensures NameLt(a, c)
    decreases |a|
  {
    if a != [] && a[0] == b[0] == c[0] {
      NameLtTransitive(a[1..], b[1..], c[1..]);
    }
  }

  lemma {:induction false} PathLtTotal(a: Path, b: Path)
    ensures PathLt(a, b) || PathLt(b, a) || a == b
    ensures !(PathLt(a, b) && PathLt(b, a)) && !PathLt(a, a)
    decreases |a|
  {
    if a != [] {
      PathLtTotal(a[1..], a[1..]);
      if b != [] {
        NameLtTotal(a[0], b[0]);
        if a[0] == b[0] {
          PathLtTotal(a[1..], b[1..]);
          assert a == [a[0]] + a[1..] && b == [b[0]] + b[1..];
        }
      }
    }
  }

  lemma {:induction false} PathLtTransitive(a: Path, b: Path, c: Path)
    requires PathLt(a, b) && PathLt(b, c)
    ensures PathLt(a, c)
    decreases |a|
  {
    if a != [] {
      if a[0] == b[0] == c[0] {
        PathLtTransitive(a[1..], b[1..], c[1..]);
      } else if a[0] != b[0] && b[0] != c[0] {
        NameLtTransitive(a[0], b[0], c[0]);
        NameLtTotal(a[0], a[0]);
        NameLtTotal(a[0], b[0]);
      }
    }
  }

  /** Below a common directory, the first differing component decides. */
  lemma {:induction false} PathLtSiblings(dir: Path, a: Name, b: Name, p: Path, q: Path)
    requires NameLt(a, b)
    ensures PathLt(dir + [a] + p, dir + [b] + q)
    decreases |dir|
  {
    var x, y := dir + [a] + p, dir + [b] + q;
    if dir == [] {
      NameLtTotal(a, b);
      assert x[0] == a && y[0] == b;
    } else {
      PathLtSiblings(dir[1..], a, b, p, q);
      assert x[1..] == dir[1..] + [a] + p && y[1..] == dir[1..] + [b] + q;
      assert x[0] == dir[0] == y[0];
    }
  }

  /** Common up to k, where a ends or has the smaller unit. */
  ghost predicate NameLtAt(a: Name, b: Name, k: nat) {
    k <= |a| && k < |b| && a[..k] == b[..k] && (k == |a| || a[k] < b[k])
  }

  /** Lexicographic: the first difference decides, and a prefix comes first. */
  lemma {:induction false} NameLtIff(a: Name, b: Name)
    ensures NameLt(a, b) <==> exists k :: NameLtAt(a, b, k)
    decreases |a|
  {
    if b != [] && a == [] {
      assert NameLtAt(a, b, 0);
    } else if b != [] && a[0] != b[0] {
      if a[0] < b[0] { assert NameLtAt(a, b, 0); }
      forall k: nat | NameLtAt(a, b, k) ensures a[0] < b[0] {
        assert k > 0 ==> a[..k][0] == b[..k][0];
      }
    } else if b != [] {
      NameLtIff(a[1..], b[1..]);
      forall k: nat | NameLtAt(a[1..], b[1..], k) ensures NameLtAt(a, b, k + 1) {
        assert a[..k + 1] == [a[0]] + a[1..][..k] && b[..k + 1] == [b[0]] + b[1..][..k];
      }
      forall k: nat | NameLtAt(a, b, k) ensures k > 0 && NameLtAt(a[1..], b[1..], k - 1) {
        assert a[1..][..k - 1] == a[..k][1..] && b[1..][..k - 1] == b[..k][1..];
      }
    }
  }

  ghost predicate PathLtAt(a: Path, b: Path, k: nat) {
    k <= |a| && k < |b| && a[..k] == b[..k] && (k == |a| || (a[k] != b[k] && NameLt(a[k], b[k])))
  }

  /** Component by component: the first different component decides, and a prefix comes first. */
  lemma {:induction false} PathLtIff(a: Path, b: Path)
    ensures PathLt(a, b) <==> exists k :: PathLtAt(a, b, k)
    decreases |a|
  {
    if b != [] && a == [] {
      assert PathLtAt(a, b, 0);
    } else if b != [] && a[0] != b[0] {
      if NameLt(a[0], b[0]) { assert PathLtAt(a, b, 0); }
      forall k: nat | PathLtAt(a, b, k) ensures NameLt(a[0], b[0]) {
        assert k > 0 ==> a[..k][0] == b[..k][0];
      }
    } else if b != [] {
      PathLtIff(a[1..], b[1..]);
      forall k: nat | PathLtAt(a[1..], b[1..], k) ensures PathLtAt(a, b, k + 1) {
        assert a[..k + 1] == [a[0]] + a[1..][..k] && b[..k + 1] == [b[0]] + b[1..][..k];
      }
      forall k: nat | PathLtAt(a, b, k) ensures k > 0 && PathLtAt(a[1..], b[1..], k - 1) {
        assert a[1..][..k - 1] == a[..k][1..] && b[1..][..k - 1] == b[..k][1..];
      }
    }
  }
}
