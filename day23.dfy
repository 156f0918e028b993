/** Day 23: crab cups. The cups, labelled 1..n, sit in a circle. A move picks up the three cups
    clockwise of the current cup, chooses as destination the first label counting down from the
    current label (wrapping from 1 to n) that was not picked up, puts the three cups back right
    after the destination, and makes the cup after the current one current. The ring is kept as a
    map from each label to the label of the next cup clockwise. */
module Day23 {
  import opened Wrappers
  import opened Arith
  import opened Text
  import opened Seqs

  // ---------------------------------------------------------------------------------------------
  // The circle as a sequence, current cup first

  /** A circle of at least four cups labelled 1..n, each label once. */
  predicate IsLabels(r: seq<nat>) {
    |r| >= 4 &&
    (forall i :: 0 <= i < |r| ==> 1 <= r[i] <= |r|) &&
    Distinct(r) &&
    (forall v :: 1 <= v <= |r| ==> v in r)
  }

  /** The position clockwise of position `i` in a circle of `n`. */
  function Next(i: nat, n: nat): (j: nat)
    requires i < n
    ensures j < n
  {
    if i + 1 < n then i + 1 else 0
  }

  /** The label `x` of a circle of `n`, with `0, -1, ...` wrapping round to `n, n - 1, ...`. */
  function Label(x: int, n: nat): (l: nat)
    requires -(n as int) < x <= n
    ensures 1 <= l <= n
  {
    if x >= 1 then x else x + n
  }

  /** `(destination_cup - 1 + len + 3) % (len + 3)`, where `len` is the number of cups left in the
      circle: the label below `d`, with 1 wrapping round to 0 (and 0 then becoming the largest). */
  function CountDown(d: int, len: nat): (e: int)
    ensures 1 <= d <= len + 3 ==> e == d - 1
  {
    var e := (d - 1 + len + 3) % (len + 3);
    assert 1 <= d <= len + 3 ==> e == d - 1 by {
      if 1 <= d <= len + 3 {
        DivModUnique(1, d - 1, len + 3);
      }
    }
    e
  }

  /** The destination: the first of the labels `cur - k`, `cur - k - 1`, ... (wrapping round) that
      is not among the picked cups. At most four labels are tried: three picked cups cannot hide
      four different labels. */
  function Destination(cur: nat, picked: seq<nat>, n: nat, k: nat): (d: nat)
    requires 1 <= cur <= n && 4 <= n && 1 <= k <= 4
    ensures 1 <= d <= n
    decreases 4 - k
  {
    if k == 4 || Label(cur - k, n) !in picked then Label(cur - k, n)
    else Destination(cur, picked, n, k + 1)
  }

  /** One round of `tick`'s search: a picked label `d = cur - k` (wrapped) means `k < 4`, and the
      search goes on with the label below it, which `CountDown` computes (as 0 for the largest). */
  lemma SearchStep(cur: nat, picked: seq<nat>, n: nat, k: nat, d: int)
    requires 1 <= cur <= n && 4 <= n && |picked| == 3 && 1 <= k <= 4
    requires Destination(cur, picked, n, k) == Destination(cur, picked, n, 1)
    requires d == Label(cur - k, n) && d in picked
    ensures k < 4 && Destination(cur, picked, n, k + 1) == Destination(cur, picked, n, 1)
    ensures var e := CountDown(d, n - 3);
      e == Label(cur - (k + 1), n) || (e == 0 && Label(cur - (k + 1), n) == n)
  {
    DestinationFree(cur, picked, n);
  }

  /** The search stops at the first label that was not picked. */
  lemma SearchEnd(cur: nat, picked: seq<nat>, n: nat, k: nat, d: int)
    requires 1 <= cur <= n && 4 <= n && |picked| == 3 && 1 <= k <= 4
    requires Destination(cur, picked, n, k) == Destination(cur, picked, n, 1)
    requires d == Label(cur - k, n) && d !in picked
    ensures d == Destination(cur, picked, n, 1)
  {
  }

  /** The destination is never a picked cup. */
  lemma DestinationFree(cur: nat, picked: seq<nat>, n: nat)
    requires 1 <= cur <= n && 4 <= n && |picked| == 3
    ensures Destination(cur, picked, n, 1) !in picked
  {
    var l1, l2, l3, l4 := Label(cur - 1, n), Label(cur - 2, n), Label(cur - 3, n), Label(cur - 4, n);
    assert l1 != l2 && l1 != l3 && l1 != l4 && l2 != l3 && l2 != l4 && l3 != l4;
    assert picked == [picked[0], picked[1], picked[2]];
  }

  /** The position of a label in the circle. */
  function IndexOf(s: seq<nat>, x: nat): (i: nat)
    requires x in s
    ensures i < |s| && s[i] == x
  {
    if s[0] == x then 0 else 1 + IndexOf(s[1..], x)
  }

  /** The cups `picked` put back right after position `j` of `rest`. */
  function Splice(rest: seq<nat>, picked: seq<nat>, j: nat): (s: seq<nat>)
    requires j < |rest|
    ensures |s| == |rest| + |picked| && s[0] == rest[0]
    ensures multiset(s) == multiset(rest) + multiset(picked)
  {
    assert rest == rest[..j + 1] + rest[j + 1..];
    rest[..j + 1] + picked + rest[j + 1..]
  }

  /** The circle listed from its second cup. */
  function Rotate(s: seq<nat>): (r: seq<nat>)
    requires |s| > 0
    ensures |r| == |s| && multiset(r) == multiset(s)
  {
    assert s == [s[0]] + s[1..];
    s[1..] + [s[0]]
  }

  /** The cups left in the circle while three are picked up: the current cup and those after the
      picked ones. */
  function Rest(r: seq<nat>): (s: seq<nat>)
    requires |r| >= 4
    ensures multiset(s) + multiset(r[1..4]) == multiset(r)
  {
    assert r == [r[0]] + r[1..4] + r[4..];
    [r[0]] + r[4..]
  }

  /** Without repeats in the circle, the remaining cups have none and exclude the picked ones. */
  lemma RestDistinct(r: seq<nat>)
    requires |r| >= 4 && Distinct(r)
    ensures Distinct(Rest(r)) && r[1] !in Rest(r) && r[2] !in Rest(r) && r[3] !in Rest(r)
  {
    var rest := Rest(r);
    assert forall p :: 1 <= p < |rest| ==> rest[p] == r[p + 3];
    forall p, q | 0 <= p < q < |rest| ensures rest[p] != rest[q] {
      if p == 0 {
        assert rest[p] == r[0] && rest[q] == r[q + 3];
      } else {
        assert rest[p] == r[p + 3] && rest[q] == r[q + 3];
      }
    }
  }

  /** The destination of the current cup `r[0]`. */
  function Dest(r: seq<nat>): (d: nat)
    requires IsLabels(r)
    ensures d in Rest(r) && d !in r[1..4]
  {
    DestinationFree(r[0], r[1..4], |r|);
    var d := Destination(r[0], r[1..4], |r|, 1);
    assert d in r;
    assert d in multiset(r);
    assert d in multiset(Rest(r));
    d
  }

  /** One move on the circle listed from the current cup: the three cups after it are taken out
      and put back right after the destination; the list then starts at the next current cup. */
  function Move(r: seq<nat>): (m: seq<nat>)
    requires IsLabels(r)
    ensures IsLabels(m) && multiset(m) == multiset(r) && |m| == |r|
  {
    var m := Rotate(Splice(Rest(r), r[1..4], IndexOf(Rest(r), Dest(r))));
    LabelsPermutation(r, m);
    m
  }

  /** A rearrangement of the labels is a circle of the same labels. */
  lemma LabelsPermutation(r: seq<nat>, m: seq<nat>)
    requires IsLabels(r) && multiset(m) == multiset(r)
    ensures IsLabels(m)
  {
    assert |m| == |multiset(m)| == |r|;
    DistinctMultiset(r, m);
    forall i | 0 <= i < |m| ensures 1 <= m[i] <= |m| {
      assert m[i] in multiset(r);
    }
    forall v | 1 <= v <= |m| ensures v in m {
      assert v in r && v in multiset(r);
    }
  }

  /** `k` moves. */
  function Moves(r: seq<nat>, k: nat): (m: seq<nat>)
    requires IsLabels(r)
    ensures IsLabels(m) && multiset(m) == multiset(r)
  {
    if k == 0 then r else Move(Moves(r, k - 1))
  }

  /** The labels clockwise after cup 1, all but cup 1 itself. */
  function AfterOne(r: seq<nat>): (s: seq<nat>)
    requires 1 in r
    ensures |s| == |r| - 1
  {
    var i := IndexOf(r, 1);
    r[i + 1..] + r[..i]
  }

  /** The `k`-th label after cup 1 is `k + 1` places clockwise of it. */
  lemma AfterOneAt(r: seq<nat>, i: nat, k: nat)
    requires i < |r| && r[i] == 1 && Distinct(r) && k < |r| - 1
    ensures AfterOne(r)[k] == r[if i + 1 + k < |r| then i + 1 + k else i + 1 + k - |r|]
  {
    assert IndexOf(r, 1) == i;
  }

  /** The product of two labels. */
  function Product(a: nat, b: nat): nat
  {
    a * b
  }

  /** `ring.iter().map(|n| n.to_string()).collect()`. */
  function ToText(labels: seq<nat>): string
  {
    if |labels| == 0 then "" else NatToString(labels[0]) + ToText(labels[1..])
  }

  /** With single-digit labels the text has one digit per label. */
  lemma {:induction false} ToTextDigits(labels: seq<nat>)
    requires forall k :: 0 <= k < |labels| ==> labels[k] < 10
    ensures |ToText(labels)| == |labels|
    ensures forall k :: 0 <= k < |labels| ==> ToText(labels)[k] == ('0' as int + labels[k]) as char
  {
    if |labels| > 0 {
      ToTextDigits(labels[1..]);
    }
  }

  // ---------------------------------------------------------------------------------------------
  // The circle as a successor map

  /** `cups` maps each cup of the circle `r` to the next one clockwise, and holds no other key. */
  ghost predicate Links(cups: map<nat, nat>, r: seq<nat>) {
    |r| > 0 &&
    (forall v :: v in cups <==> v in r) &&
    (forall i {:trigger cups[r[i]]} :: 0 <= i < |r| ==> r[i] in cups && cups[r[i]] == r[Next(i, |r|)])
  }

  /** `take_three_cups` on the map: the current cup links to the fourth cup after it, and the three
      picked cups lose their keys. */
  function Unlinked(cups: map<nat, nat>, r: seq<nat>): map<nat, nat>
    requires |r| >= 4 && r[3] in cups
  {
    cups[r[0] := cups[r[3]]] - {r[1], r[2], r[3]}
  }

  /** Taking the three cups out leaves the successor map of the remaining circle. */
  lemma UnlinkedLinks(cups: map<nat, nat>, r: seq<nat>)
    requires IsLabels(r) && Links(cups, r)
    ensures Links(Unlinked(cups, r), Rest(r))
  {
    var n, rest, m := |r|, Rest(r), Unlinked(cups, r);
    UnlinkedKeys(cups, r);
    assert r[3] == r[Next(2, n)];
    forall i | 0 <= i < |rest| ensures rest[i] in m && m[rest[i]] == rest[Next(i, |rest|)] {
      if i == 0 {
        assert r[Next(3, n)] == rest[Next(0, |rest|)];
      } else {
        assert rest[i] == r[i + 3];
      }
    }
  }

  /** Taking the three cups out removes exactly their keys. */
  lemma UnlinkedKeys(cups: map<nat, nat>, r: seq<nat>)
    requires |r| >= 4 && Distinct(r) && Links(cups, r)
    ensures forall v :: v in Unlinked(cups, r) <==> v in Rest(r)
  {
    var n, rest, m := |r|, Rest(r), Unlinked(cups, r);
    assert r[3] == r[Next(2, n)];
    forall v ensures v in m <==> v in rest {
      if v in r {
        var k :| 0 <= k < n && r[k] == v;
        if k >= 4 {
          assert rest[k - 3] == v;
        }
      }
    }
  }

  /** Putting `a`, `b`, `c` back after `s[j]`: the destination links to `a`, `a` to `b`, `b` to `c`
      and `c` to the destination's former successor. */
  function Relinked(m: map<nat, nat>, d: nat, a: nat, b: nat, c: nat): map<nat, nat>
    requires d in m
  {
    m[d := a][a := b][b := c][c := m[d]]
  }

  /** Re-linking the three cups after `s[j]` gives the successor map of the spliced circle. */
  lemma RelinkedLinks(m: map<nat, nat>, s: seq<nat>, j: nat, a: nat, b: nat, c: nat)
    requires Links(m, s) && Distinct(s) && j < |s|
    requires a !in s && b !in s && c !in s && a != b && a != c && b != c
    ensures Links(Relinked(m, s[j], a, b, c), Splice(s, [a, b, c], j))
  {
    var t, m2 := Splice(s, [a, b, c], j), Relinked(m, s[j], a, b, c);
    RelinkedKeys(m, s, j, a, b, c);
    forall p | 0 <= p < |t| ensures t[p] in m2 && m2[t[p]] == t[Next(p, |t|)] {
      RelinkedAt(m, s, j, a, b, c, p);
    }
  }

  /** Re-linking adds exactly the three cups as keys. */
  lemma RelinkedKeys(m: map<nat, nat>, s: seq<nat>, j: nat, a: nat, b: nat, c: nat)
    requires Links(m, s) && j < |s|
    ensures forall v :: v in Relinked(m, s[j], a, b, c) <==> v in Splice(s, [a, b, c], j)
  {
    var t, m2 := Splice(s, [a, b, c], j), Relinked(m, s[j], a, b, c);
    assert t == s[..j + 1] + [a, b, c] + s[j + 1..];
    forall v ensures v in m2 <==> v in t {
      if v in s {
        var k :| 0 <= k < |s| && s[k] == v;
        if k > j {
          assert t[k + 3] == v;
        } else {
          assert t[k] == v;
        }
      }
      assert a == t[j + 1] && b == t[j + 2] && c == t[j + 3];
    }
  }

  /** One link of `RelinkedLinks`. */
  lemma RelinkedAt(m: map<nat, nat>, s: seq<nat>, j: nat, a: nat, b: nat, c: nat, p: nat)
    requires Links(m, s) && Distinct(s) && j < |s|
    requires a !in s && b !in s && c !in s && a != b && a != c && b != c
    requires p < |s| + 3
    ensures Splice(s, [a, b, c], j)[p] in Relinked(m, s[j], a, b, c)
    ensures Relinked(m, s[j], a, b, c)[Splice(s, [a, b, c], j)[p]] == Splice(s, [a, b, c], j)[Next(p, |s| + 3)]
  {
    var t, m2 := Splice(s, [a, b, c], j), Relinked(m, s[j], a, b, c);
    assert t == s[..j + 1] + [a, b, c] + s[j + 1..];
    if j <= p <= j + 3 {
      RelinkedInserted(m, s, j, a, b, c, t, m2, p);
    } else {
      assert s[if p < j then p else p - 3] != s[j];
      RelinkedKept(m, s, j, a, b, c, t, m2, p);
    }
  }

  /** The links from the destination cup and from the three re-inserted cups. */
  lemma RelinkedInserted(m: map<nat, nat>, s: seq<nat>, j: nat, a: nat, b: nat, c: nat, t: seq<nat>, m2: map<nat, nat>, p: nat)
    requires Links(m, s) && j < |s|
    requires a !in s && b !in s && c !in s && a != b && a != c && b != c
    requires t == s[..j + 1] + [a, b, c] + s[j + 1..]
    requires s[j] in m && m2 == Relinked(m, s[j], a, b, c)
    requires j <= p <= j + 3
    ensures t[p] in m2 && m2[t[p]] == t[Next(p, |t|)]
  {
    assert m[s[j]] == s[Next(j, |s|)];
    if p == j {
      assert t[p] == s[j] && t[p + 1] == a;
    } else if p == j + 1 {
      assert t[p] == a && t[p + 1] == b;
    } else if p == j + 2 {
      assert t[p] == b && t[p + 1] == c;
    } else {
      assert t[p] == c;
      if j + 1 < |s| {
        assert t[p + 1] == s[j + 1];
      } else {
        assert t[0] == s[0];
      }
    }
  }

  /** The links from the cups that stay where they were. */
  lemma RelinkedKept(m: map<nat, nat>, s: seq<nat>, j: nat, a: nat, b: nat, c: nat, t: seq<nat>, m2: map<nat, nat>, p: nat)
    requires Links(m, s) && j < |s|
    requires a !in s && b !in s && c !in s
    requires t == s[..j + 1] + [a, b, c] + s[j + 1..]
    requires s[j] in m && m2 == Relinked(m, s[j], a, b, c)
    requires p < j || j + 3 < p < |t|
    requires s[if p < j then p else p - 3] != s[j]
    ensures t[p] in m2 && m2[t[p]] == t[Next(p, |t|)]
  {
    var q: nat := if p < j then p else p - 3;
    assert t[p] == s[q];
    assert m[s[q]] == s[Next(q, |s|)];
    if p < j {
      assert t[p + 1] == s[p + 1];
    } else if p + 1 < |t| {
      assert t[p + 1] == s[q + 1];
    } else {
      assert t[0] == s[0];
    }
  }

  /** The successor map of a circle is also that of the circle listed from its second cup, and
      maps the first cup to the second. */
  lemma RotateLinks(m: map<nat, nat>, s: seq<nat>)
    requires Links(m, s) && |s| >= 2
    ensures Links(m, Rotate(s)) && m[s[0]] == Rotate(s)[0]
  {
    var t := Rotate(s);
    forall v ensures v in t <==> v in s {
      if v in s {
        var k :| 0 <= k < |s| && s[k] == v;
        if k > 0 {
          assert t[k - 1] == v;
        } else {
          assert t[|s| - 1] == v;
        }
      }
    }
    forall p | 0 <= p < |t| ensures t[p] in m && m[t[p]] == t[Next(p, |t|)] {
      if p < |t| - 1 {
        assert t[p] == s[p + 1];
      }
    }
  }

  /** The successor map after the three cups are put back: that of the spliced circle. */
  lemma SplicedLinks(cups: map<nat, nat>, r: seq<nat>)
    requires IsLabels(r) && Links(cups, r)
    ensures Dest(r) in Unlinked(cups, r)
    ensures Links(Relinked(Unlinked(cups, r), Dest(r), r[1], r[2], r[3]),
                  Splice(Rest(r), r[1..4], IndexOf(Rest(r), Dest(r))))
  {
    UnlinkedLinks(cups, r);
    RestDistinct(r);
    assert r[1..4] == [r[1], r[2], r[3]];
    RelinkedLinks(Unlinked(cups, r), Rest(r), IndexOf(Rest(r), Dest(r)), r[1], r[2], r[3]);
  }

  /** A move on the successor map is a move on the circle. */
  lemma MoveLinks(cups: map<nat, nat>, r: seq<nat>)
    requires IsLabels(r) && Links(cups, r)
    ensures Dest(r) in Unlinked(cups, r)
    ensures Links(Relinked(Unlinked(cups, r), Dest(r), r[1], r[2], r[3]), Move(r))
    ensures Relinked(Unlinked(cups, r), Dest(r), r[1], r[2], r[3])[r[0]] == Move(r)[0]
  {
    SplicedLinks(cups, r);
    RotateLinks(Relinked(Unlinked(cups, r), Dest(r), r[1], r[2], r[3]),
                Splice(Rest(r), r[1..4], IndexOf(Rest(r), Dest(r))));
  }

  /** `keys.zip(values).collect::<HashMap<_, _>>()`: the pairs are inserted in order, so a later
      pair with the same key overwrites an earlier one. */
  function Zip(keys: seq<nat>, values: seq<nat>): (m: map<nat, nat>)
    requires |keys| == |values|
    ensures forall v :: v in m <==> v in keys
  {
    if |keys| == 0 then map[]
    else
      var k := |keys| - 1;
      var m := Zip(keys[..k], values[..k]);
      assert forall v :: v in keys <==> v in keys[..k] || v == keys[k] by {
        assert keys == keys[..k] + [keys[k]];
      }
      m[keys[k] := values[k]]
  }

  /** With keys that do not repeat, each key maps to its own value. */
  lemma {:induction false} ZipAt(keys: seq<nat>, values: seq<nat>, i: nat)
    requires |keys| == |values| && Distinct(keys) && i < |keys|
    ensures keys[i] in Zip(keys, values) && Zip(keys, values)[keys[i]] == values[i]
    decreases |keys|
  {
    var k := |keys| - 1;
    if i < k {
      ZipAt(keys[..k], values[..k], i);
      assert keys[i] != keys[k];
    }
  }

  /** `parse_input`'s rotation: the last label first, then the others in order. */
  function RotatedRight(labels: seq<nat>): (rotated: seq<nat>)
    requires |labels| > 0
    ensures |rotated| == |labels|
    ensures forall i :: 0 <= i < |labels| ==> rotated[Next(i, |labels|)] == labels[i]
  {
    var n := |labels|;
    var rotated := [labels[n - 1]] + labels[..n - 1];
    assert forall k :: 1 <= k < n ==> rotated[k] == labels[k - 1];
    rotated
  }

  /** Rotating keeps the labels and their distinctness. */
  lemma RotatedRightLabels(labels: seq<nat>)
    requires |labels| > 0 && Distinct(labels)
    ensures Distinct(RotatedRight(labels))
    ensures forall v :: v in RotatedRight(labels) <==> v in labels
  {
    var n, rotated := |labels|, RotatedRight(labels);
    assert forall k :: 1 <= k < n ==> rotated[k] == labels[k - 1];
    forall i, j | 0 <= i < j < n ensures rotated[i] != rotated[j] {
      assert rotated[j] == labels[j - 1];
      if i > 0 {
        assert rotated[i] == labels[i - 1];
      }
    }
    forall v ensures v in rotated <==> v in labels {
      if v in labels {
        var k :| 0 <= k < n && labels[k] == v;
        assert rotated[Next(k, n)] == v;
      }
      if v in rotated {
        var k :| 0 <= k < n && rotated[k] == v;
        if k == 0 {
          assert labels[n - 1] == v;
        } else {
          assert labels[k - 1] == v;
        }
      }
    }
  }

  /** Zipping the rotated labels with the labels links each cup to the next one clockwise. */
  lemma ZipLinks(labels: seq<nat>)
    requires |labels| > 0 && Distinct(labels)
    ensures Links(Zip(RotatedRight(labels), labels), labels)
  {
    var n, rotated := |labels|, RotatedRight(labels);
    var m := Zip(rotated, labels);
    RotatedRightLabels(labels);
    forall i | 0 <= i < n ensures labels[i] in m && m[labels[i]] == labels[Next(i, n)] {
      ZipAt(rotated, labels, Next(i, n));
    }
  }

  /** The successor map of a circle without repeats has one key per cup. */
  lemma LinksCard(m: map<nat, nat>, s: seq<nat>)
    requires Links(m, s) && Distinct(s)
    ensures |m| == |s|
  {
    assert |m| == |m.Keys|;
    DistinctCard(s, m.Keys);
  }

  /** Three cups fewer are linked once they are picked up. */
  lemma UnlinkedCard(cups: map<nat, nat>, r: seq<nat>)
    requires IsLabels(r) && Links(cups, r)
    ensures |Unlinked(cups, r)| == |r| - 3
  {
    UnlinkedLinks(cups, r);
    RestDistinct(r);
    LinksCard(Unlinked(cups, r), Rest(r));
  }

  /** The position `k` places clockwise of position `i` in a circle of `n`, for `k < n`. */
  function Clockwise(i: nat, k: nat, n: nat): (j: nat)
    ensures i < n && k < n ==> j < n
  {
    if i + k < n then i + k else i + k - n
  }

  /** One step of `into`: following the link from the `k`-th cup clockwise of cup 1 gives the
      next label after cup 1. */
  lemma FollowLink(cups: map<nat, nat>, r: seq<nat>, i: nat, p: nat, k: nat)
    requires Links(cups, r) && Distinct(r) && i < |r| && r[i] == 1 && k < |r| - 1
    requires p == Clockwise(i, k, |r|)
    ensures r[p] in cups && cups[r[p]] == AfterOne(r)[k]
    ensures AfterOne(r)[..k + 1] == AfterOne(r)[..k] + [cups[r[p]]]
    ensures Next(p, |r|) == Clockwise(i, k + 1, |r|)
  {
    AfterOneAt(r, i, k);
    assert cups[r[p]] == r[Next(p, |r|)];
    TakeSnoc(AfterOne(r), k);
  }

  // ---------------------------------------------------------------------------------------------
  // Input

  /** `input.chars().map(|ch| ch.to_digit(10).unwrap())`: the digit values, or nothing when a
      character is not a decimal digit (where the source panics). */
  function Digits(input: string): (r: Option<seq<nat>>)
    ensures r.Some? <==> forall c :: c in input ==> IsDigit(c)
    ensures r.Some? ==> (|r.value| == |input| &&
      forall i :: 0 <= i < |input| ==> r.value[i] == input[i] as int - '0' as int)
  {
    if |input| == 0 then Some([])
    else if !IsDigit(input[0]) then None
    else
      match Digits(input[1..])
      case None => None
      case Some(rest) =>
        assert forall c :: c in input ==> c == input[0] || c in input[1..];
        Some([input[0] as int - '0' as int] + rest)
  }

  /** The labels `lo, lo + 1, ..., hi - 1`. */
  function Upto(lo: nat, hi: nat): (s: seq<nat>)
    requires lo <= hi
    ensures |s| == hi - lo && forall i :: 0 <= i < |s| ==> s[i] == lo + i
    decreases hi - lo
  {
    if lo == hi then [] else [lo] + Upto(lo + 1, hi)
  }

  /** `parse_input`'s labels: the digits, followed by `10..=1_000_000` when `extend` is set. */
  function ParseInput(input: string, extend: bool): (r: Option<seq<nat>>)
    ensures r.Some? <==> Digits(input).Some?
    ensures r.Some? ==> (|r.value| == if extend then |input| + 999_991 else |input|)
    ensures r.Some? ==> (r.value[..|input|] == Digits(input).value &&
      forall i :: |input| <= i < |r.value| ==> r.value[i] == i - |input| + 10)
  {
    match Digits(input)
    case None => None
    case Some(digits) => Some(if extend then digits + Upto(10, 1_000_001) else digits)
  }

  /** The input is a circle of labels `1..n`. */
  predicate CupLabels(input: string) {
    Digits(input).Some? && IsLabels(Digits(input).value)
  }

  /** `digits.iter().max()`. */
  function Maximum(s: seq<nat>): (m: nat)
    requires |s| > 0
    ensures m in s && forall x :: x in s ==> x <= m
  {
    if |s| == 1 then s[0]
    else
      var m := Maximum(s[1..]);
      assert forall x :: x in s ==> x == s[0] || x in s[1..];
      if s[0] > m then s[0] else m
  }

  /** The largest of the labels `1..n` is `n`. */
  lemma LabelsMaximum(s: seq<nat>)
    requires IsLabels(s)
    ensures Maximum(s) == |s|
  {
    assert |s| in s;
    var k :| 0 <= k < |s| && s[k] == Maximum(s);
  }

  /** Appending the labels `n + 1 .. hi - 1` to a circle of `1..n` gives a circle of `1..hi - 1`. */
  lemma ExtendLabels(s: seq<nat>, hi: nat)
    requires IsLabels(s) && |s| < hi
    ensures IsLabels(s + Upto(|s| + 1, hi))
  {
    var n, u := |s|, Upto(|s| + 1, hi);
    var t := s + u;
    forall i | 0 <= i < |t| ensures 1 <= t[i] <= |t| {
      if i >= n {
        assert t[i] == u[i - n];
      }
    }
    forall i, j | 0 <= i < j < |t| ensures t[i] != t[j] {
      if j >= n {
        assert t[j] == u[j - n] == n + 1 + j - n;
        if i >= n {
          assert t[i] == u[i - n];
        }
      }
    }
    forall v | 1 <= v <= |t| ensures v in t {
      if v <= n {
        assert v in s;
        var k :| 0 <= k < n && s[k] == v;
        assert t[k] == v;
      } else {
        assert t[v - 1] == u[v - 1 - n] == v;
      }
    }
  }

  /** With a circle of nine cups, `part2`'s million labels form a circle as well. */
  lemma ExtendedInput(input: string)
    requires CupLabels(input) && |input| == 9
    ensures ParseInput(input, true).Some? && IsLabels(ParseInput(input, true).value)
  {
    ExtendLabels(Digits(input).value, 1_000_001);
  }

  /** The loop of `into`: starting from cup 1, follows the links once round the circle and
      collects the labels met. */
  method FollowFromOne(cups: map<nat, nat>, ghost r: seq<nat>) returns (labels: seq<nat>)
    requires Links(cups, r) && Distinct(r) && 1 in r
    ensures labels == AfterOne(r)
  {
    ghost var n := |r|;
    ghost var after := AfterOne(r);
    LinksCard(cups, r);
    var ptr: nat := 1;
    labels := [];
    ghost var i: nat := IndexOf(r, 1);
    ghost var p: nat := i;
    while |labels| < |cups| - 1
      invariant |cups| == n && |labels| <= n - 1 && p < n && ptr == r[p]
      invariant p == Clockwise(i, |labels|, n)
      invariant labels == after[..|labels|]
      decreases n - |labels|
    {
      ghost var k := |labels|;
      FollowLink(cups, r, i, p, k);
      var v := cups[ptr];
      assert after[..k + 1] == labels + [v];
      labels := labels + [v];
      ptr := v;
      p := Next(p, n);
    }
    assert |labels| == |after|;
    assert labels == after[..|after|];
  }

  /** The invariant of a ring: the circle holds the labels `1..=n`, `cups` is its successor map,
      the current cup is the first one listed, and `max` is `n`. */
  ghost predicate RingState(cups: map<nat, nat>, currentCup: nat, max: nat, ring: seq<nat>) {
    IsLabels(ring) && Links(cups, ring) && currentCup == ring[0] && max == |ring|
  }

  /** The state `parse_input` builds satisfies it. */
  lemma InitialRing(labels: seq<nat>)
    requires IsLabels(labels)
    ensures RingState(Zip(RotatedRight(labels), labels), labels[0], Maximum(labels), labels)
  {
    ZipLinks(labels);
    LabelsMaximum(labels);
  }

  /** `struct Ring`: `cups` maps each cup to the next one clockwise, `current_cup` is the current
      cup and `max` the largest label. `ring` lists the circle from the current cup. (`min` is
      computed by the source but never read, and is not modelled.) */
  class Ring {
    var cups: map<nat, nat>
    var currentCup: nat
    const max: nat
    ghost var ring: seq<nat>

    ghost predicate Valid()
      reads this
    {
      RingState(cups, currentCup, max, ring)
    }

    /** `parse_input`'s ring: `cups` zips the labels rotated by one (the last label first) with the
        labels, so each label maps to the next and the last to the first. */
    constructor (labels: seq<nat>)
      requires IsLabels(labels)
      ensures Valid() && ring == labels
    {
      InitialRing(labels);
      cups := Zip(RotatedRight(labels), labels);
      currentCup := labels[0];
      max := Maximum(labels);
      ring := labels;
    }

    /** `take_three_cups`: the three cups after the current one, unlinked from the circle. */
    method TakeThreeCups() returns (three: seq<nat>)
      requires Valid()
      modifies this`cups
      ensures three == ring[1..4]
      ensures cups == Unlinked(old(cups), ring)
    {
      assert ring[1] == ring[Next(0, |ring|)] && ring[2] == ring[Next(1, |ring|)];
      assert ring[3] == ring[Next(2, |ring|)];
      var first := cups[currentCup];
      var second := cups[first];
      var third := cups[second];
      var next := cups[third];
      cups := cups[currentCup := next];
      cups := cups - {first};
      cups := cups - {second};
      cups := cups - {third};
      three := [first, second, third];
    }

    /** `inc_cup`: the cup after the current one becomes current. */
    method IncCup() returns (c: nat)
      requires currentCup in cups
      modifies this`currentCup
      ensures currentCup == cups[old(currentCup)] && c == currentCup
    {
      currentCup := cups[currentCup];
      c := currentCup;
    }

    /** The destination search of `tick`: count down from the current label, wrapping round from
        1 to `max`, past the picked cups. */
    method SelectDestination(threeCups: seq<nat>) returns (destinationCup: nat)
      requires 1 <= currentCup <= max && 4 <= max && |cups| + 3 == max && |threeCups| == 3
      ensures destinationCup == Destination(currentCup, threeCups, max, 1)
    {
      var d: int := currentCup - 1;
      ghost var k: nat := 1;
      DestinationFree(currentCup, threeCups, max);
      while true
        invariant 1 <= k <= 4
        invariant Destination(currentCup, threeCups, max, k) == Destination(currentCup, threeCups, max, 1)
        invariant d == Label(currentCup - k, max) || (d == 0 && Label(currentCup - k, max) == max)
        decreases 4 - k
      {
        if d == 0 {
          d := max;
        }
        if d in threeCups {
          SearchStep(currentCup, threeCups, max, k, d);
          d := CountDown(d, |cups|);
          k := k + 1;
        } else {
          SearchEnd(currentCup, threeCups, max, k, d);
          break;
        }
      }
      destinationCup := d;
    }

    /** `tick`: one move. */
    method Tick()
      requires Valid()
      modifies this
      ensures Valid() && ring == Move(old(ring))
    {
      ghost var r := ring;
      ghost var n := |r|;
      UnlinkedCard(cups, r);
      var threeCups := TakeThreeCups();
      var destinationCup := SelectDestination(threeCups);
      assert threeCups == r[1..4];
      assert destinationCup == Dest(r);
      MoveLinks(old(cups), r);
      var a, b, c := threeCups[0], threeCups[1], threeCups[2];
      var tail := cups[destinationCup];
      cups := cups[destinationCup := a];
      cups := cups[a := b];
      cups := cups[b := c];
      cups := cups[c := tail];
      assert cups == Relinked(Unlinked(old(cups), r), Dest(r), r[1], r[2], r[3]);
      assert currentCup == r[0];
      ring := Move(r);
      var _ := IncCup();
    }

    /** `into`: the labels after cup 1, found by following the links from it, as text. */
    method Into() returns (s: string)
      requires Valid()
      ensures s == ToText(AfterOne(ring))
    {
      assert 1 in ring;
      var labels := FollowFromOne(cups, ring);
      s := ToText(labels);
    }

    /** `part2`'s answer: the product of the two labels after cup 1. */
    method TwoAfterOne() returns (product: nat)
      requires Valid()
      ensures product == Product(AfterOne(ring)[0], AfterOne(ring)[1])
    {
      ghost var i := IndexOf(ring, 1);
      AfterOneAt(ring, i, 0);
      AfterOneAt(ring, i, 1);
      var first := cups[1];
      var second := cups[first];
      product := Product(first, second);
    }
  }

  /** The circle 8, 3, 7, 4, 1, 9, 2, 6, 5, listed from its current cup, reads "92658374" from
      cup 1. This is the example's circle after ten moves from 389125467, written out rather than
      computed by `Moves`. */
  lemma IntoExample()
    ensures ToText(AfterOne([8, 3, 7, 4, 1, 9, 2, 6, 5])) == "92658374"
  {
    AfterOneExample();
    ExampleText();
  }

  lemma ExampleText()
    ensures ToText([9, 2, 6, 5, 8, 3, 7, 4]) == "92658374"
  {
    ToTextDigits([9, 2, 6, 5, 8, 3, 7, 4]);
  }

  /** The labels after cup 1 in the example's final circle. */
  lemma AfterOneExample()
    ensures AfterOne([8, 3, 7, 4, 1, 9, 2, 6, 5]) == [9, 2, 6, 5, 8, 3, 7, 4]
  {
    assert IndexOf([8, 3, 7, 4, 1, 9, 2, 6, 5], 1) == 4;
  }

  // ---------------------------------------------------------------------------------------------
  // The two parts

  /** `part1`: `rounds` moves on the circle of the input's digits, then the labels after cup 1. */
  method Part1(input: string, rounds: nat) returns (r: string)
    requires CupLabels(input)
    ensures r == ToText(AfterOne(Moves(Digits(input).value, rounds)))
  {
    var labels := ParseInput(input, false).value;
    var ring := new Ring(labels);
    for i := 0 to rounds
      invariant fresh(ring) && ring.Valid() && ring.ring == Moves(labels, i)
    {
      ring.Tick();
    }
    r := ring.Into();
  }

  /** `part2`: `rounds` moves on the input's nine cups followed by cups 10 to 1,000,000, then the
      product of the two labels after cup 1. */
  method Part2(input: string, rounds: nat) returns (r: nat)
    requires CupLabels(input) && |input| == 9
    ensures ParseInput(input, true).Some? && IsLabels(ParseInput(input, true).value)
    ensures var after := AfterOne(Moves(ParseInput(input, true).value, rounds));
      r == Product(after[0], after[1])
  {
    ExtendedInput(input);
    var labels := ParseInput(input, true).value;
    var ring := new Ring(labels);
    for i := 0 to rounds
      invariant fresh(ring) && ring.Valid() && ring.ring == Moves(labels, i)
    {
      ring.Tick();
    }
    r := ring.TwoAfterOne();
  }
}
