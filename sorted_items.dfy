/** `sorted(d.items())` for a dictionary from string labels to integer totals:
    the pairs in strictly increasing label order. Because labels are dictionary
    keys they are distinct, so the order between two pairs is decided by their
    labels alone. */
module SortedItems {
  import opened Strings

  type Item = (string, int)

  predicate StrictlySorted(s: seq<Item>) {
    forall i, j :: 0 <= i < j < |s| ==> Less(s[i].0, s[j].0)
  }

  function Labels(s: seq<Item>): set<string> {
    set i | 0 <= i < |s| :: s[i].0
  }

  function Elements(s: seq<Item>): set<Item> {
    set i | 0 <= i < |s| :: s[i]
  }

  /** Insert a pair with a new label into its place in a sorted sequence. */
  function Insert(x: Item, s: seq<Item>): (r: seq<Item>)
    requires StrictlySorted(s) && x.0 !in Labels(s)
    ensures StrictlySorted(r)
    ensures Labels(r) == Labels(s) + {x.0}
    ensures Elements(r) == Elements(s) + {x}
    ensures |r| == |s| + 1
  {
    if s == [] then
      ConsSets(x, []);
      assert [x] + [] == [x];
      [x]
    else if Less(x.0, s[0].0) then
      assert forall j :: 0 <= j < |s| ==> Less(x.0, s[j].0) by {
        forall j | 0 < j < |s| ensures Less(x.0, s[j].0) {
          LessTransitive(x.0, s[0].0, s[j].0);
        }
      }
      ConsSets(x, s);
      [x] + s
    else
      assert Less(s[0].0, x.0) by {
        assert s[0].0 in Labels(s);
        LessTotal(x.0, s[0].0);
      }
      var tail := s[1..];
      assert Labels(s) == {s[0].0} + Labels(tail);
      assert Elements(s) == {s[0]} + Elements(tail);
      var rest := Insert(x, tail);
      assert forall j :: 0 <= j < |rest| ==> Less(s[0].0, rest[j].0) by {
        forall j | 0 <= j < |rest| ensures Less(s[0].0, rest[j].0) {
          assert rest[j].0 in Labels(rest);
          if rest[j].0 != x.0 {
            var k :| 0 <= k < |tail| && tail[k].0 == rest[j].0;
            assert tail[k] == s[k + 1];
          }
        }
      }
      ConsSets(s[0], rest);
      [s[0]] + rest
  }

  lemma ConsSets(y: Item, t: seq<Item>)
    ensures Labels([y] + t) == {y.0} + Labels(t)
    ensures Elements([y] + t) == {y} + Elements(t)
  {
    var c := [y] + t;
    forall i | 0 <= i < |t| ensures c[i + 1] == t[i] { }
    forall z | z in Elements(c) ensures z == y || z in Elements(t) {
      var k :| 0 <= k < |c| && c[k] == z;
      if k > 0 { assert t[k - 1] == z; }
    }
    forall l | l in Labels(c) ensures l == y.0 || l in Labels(t) {
      var k :| 0 <= k < |c| && c[k].0 == l;
      if k > 0 { assert t[k - 1].0 == l; }
    }
    assert c[0] == y;
  }

  /** The first pair of a sorted sequence has the least label. */
  lemma HeadIsLeast(s: seq<Item>, x: Item)
    requires StrictlySorted(s) && s != [] && x in Elements(s) && x != s[0]
    ensures Less(s[0].0, x.0)
  {
  }

  /** A set of pairs with distinct labels has exactly one strictly sorted
      arrangement: this is what makes `sorted(d.items())` a function of `d`. */
  lemma {:induction false} SortedUnique(a: seq<Item>, b: seq<Item>)
    requires StrictlySorted(a) && StrictlySorted(b)
    requires Elements(a) == Elements(b)
    ensures a == b
    decreases |a|
  {
    EmptyIffNoElements(a);
    EmptyIffNoElements(b);
    if a != [] {
      assert a[0] in Elements(a);
      assert b != [];
      assert b[0] in Elements(b);
      if a[0] != b[0] {
        HeadIsLeast(a, b[0]);
        HeadIsLeast(b, a[0]);
        LessAsymmetric(a[0].0, b[0].0);
      }
      TailElements(a);
      TailElements(b);
      SortedUnique(a[1..], b[1..]);
      assert a == [a[0]] + a[1..] && b == [b[0]] + b[1..];
    }
  }

  lemma EmptyIffNoElements(s: seq<Item>)
    ensures s == [] <==> Elements(s) == {}
  {
    if s != [] {
      assert s[0] in Elements(s);
    }
  }

  /** Dropping the head of a sorted sequence drops exactly that pair. */
  lemma TailElements(s: seq<Item>)
    requires StrictlySorted(s) && s != []
    ensures Elements(s[1..]) == Elements(s) - {s[0]}
  {
    forall x | x in Elements(s[1..]) ensures x != s[0] {
      var k :| 0 <= k < |s[1..]| && s[1..][k] == x;
      assert s[k + 1] == x;
      LessIrreflexive(s[0].0);
    }
    forall x | x in Elements(s) && x != s[0] ensures x in Elements(s[1..]) {
      var k :| 0 <= k < |s| && s[k] == x;
      assert s[1..][k - 1] == x;
    }
  }
}
