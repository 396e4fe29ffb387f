/** Bytes, optional values and the few facts about byte strings that several components share. */
module ByteStrings {
  newtype byte = x: int | 0 <= x < 256

  type Bytes = seq<byte>

  datatype Option<+T> = None | Some(value: T)

  const PIPE: byte := 124
  const COMMA: byte := 44
  const COLON: byte := 58

  /** The bytes of an ASCII literal. */
  function Ascii(s: string): (b: Bytes)
    requires forall c | c in s :: c < 128 as char
    ensures |b| == |s| && forall i | 0 <= i < |s| :: b[i] as int == s[i] as int
  {
    seq(|s|, i requires 0 <= i < |s| => (assert s[i] in s; s[i] as int as byte))
  }

  /** Where `sep` first occurs in `s`, or the length of `s`. */
  function FirstIndex(s: Bytes, sep: byte): (i: nat)
    ensures i <= |s| && sep !in s[..i]
    ensures i < |s| ==> s[i] == sep
  {
    if s == [] || s[0] == sep then 0 else
      var j := FirstIndex(s[1..], sep);
      assert s[..j + 1] == [s[0]] + s[1..][..j];
      j + 1
  }

  /** A separator that does not occur in the heads splits two equal strings at the same place. */
  lemma SplitUnique(head1: Bytes, tail1: Bytes, head2: Bytes, tail2: Bytes, sep: byte)
    requires sep !in head1 && sep !in head2
    requires head1 + [sep] + tail1 == head2 + [sep] + tail2
    ensures head1 == head2 && tail1 == tail2
  {
    var s := head1 + [sep] + tail1;
    assert s[|head1|] == sep && s[|head2|] == sep;
    assert |head1| == |head2|;
    assert head1 == s[..|head1|] && head2 == s[..|head2|];
    assert tail1 == s[|head1| + 1..] && tail2 == s[|head2| + 1..];
  }

  lemma Associative<T>(a: seq<T>, b: seq<T>, c: seq<T>)
    ensures (a + b) + c == a + (b + c)
  {
  }

  lemma ThreeParts<T>(a: seq<T>, b: seq<T>, c: seq<T>)
    ensures (a + b + c)[..|a|] == a
    ensures (a + b + c)[|a|..|a| + |b|] == b
    ensures (a + b + c)[|a| + |b|..] == c
  {
  }

  /** Byte strings one after the other. */
  function Flatten(cs: seq<Bytes>): Bytes {
    if cs == [] then [] else cs[0] + Flatten(cs[1..])
  }

  lemma {:induction false} FlattenAppend(cs: seq<Bytes>, ds: seq<Bytes>)
    ensures Flatten(cs + ds) == Flatten(cs) + Flatten(ds)
  {
    if cs == [] {
      assert cs + ds == ds;
    } else {
      calc {
        Flatten(cs + ds);
        { assert (cs + ds)[1..] == cs[1..] + ds; }
        cs[0] + Flatten(cs[1..] + ds);
        { FlattenAppend(cs[1..], ds); }
        cs[0] + (Flatten(cs[1..]) + Flatten(ds));
        { Associative(cs[0], Flatten(cs[1..]), Flatten(ds)); }
        Flatten(cs) + Flatten(ds);
      }
    }
  }

  /** How many whole strings the first `k` bytes hold. */
  function WholeChunks(cs: seq<Bytes>, k: nat): (m: nat)
    ensures m <= |cs|
  {
    if cs == [] || k < |cs[0]| then 0 else 1 + WholeChunks(cs[1..], k - |cs[0]|)
  }

  /** A cut of the concatenation keeps the whole strings before it and a proper start of the next one. */
  lemma {:induction false} CutPoint(cs: seq<Bytes>, k: nat) returns (cut: Bytes)
    requires k <= |Flatten(cs)|
    ensures var m := WholeChunks(cs, k);
            Flatten(cs)[..k] == Flatten(cs[..m]) + cut &&
            if m < |cs| then |cut| < |cs[m]| && cut == cs[m][..|cut|] else cut == []
  {
    if cs == [] {
      cut := [];
    } else if k < |cs[0]| {
      cut := cs[0][..k];
      assert Flatten(cs)[..k] == cut == Flatten(cs[..0]) + cut;
    } else {
      var m := WholeChunks(cs[1..], k - |cs[0]|);
      cut := CutPoint(cs[1..], k - |cs[0]|);
      assert cs[..m + 1][0] == cs[0] && cs[..m + 1][1..] == cs[1..][..m];
      assert Flatten(cs)[..k] == cs[0] + Flatten(cs[1..])[..k - |cs[0]|];
    }
  }

  /** Byte-wise lexicographic order: the order of Rust strings and of sled keys. */
  predicate LexLess(a: Bytes, b: Bytes) {
    if b == [] then false
    else if a == [] then true
    else a[0] < b[0] || (a[0] == b[0] && LexLess(a[1..], b[1..]))
  }

  /** `k` is where two strings first differ, and the byte of `a` is the smaller one. */
  predicate FirstDifference(a: Bytes, b: Bytes, k: nat) {
    k < |a| && k < |b| && a[..k] == b[..k] && a[k] < b[k]
  }

  /** The order is that of a dictionary: a proper prefix is less, and otherwise the first difference decides. */
  lemma {:induction false} LexLessIff(a: Bytes, b: Bytes)
    ensures LexLess(a, b) <==> (|a| < |b| && a == b[..|a|]) || exists k :: FirstDifference(a, b, k)
  {
    if a != [] && b != [] {
      LexLessIff(a[1..], b[1..]);
      assert a == [a[0]] + a[1..] && b == [b[0]] + b[1..];
      if a[0] < b[0] {
        assert FirstDifference(a, b, 0);
      } else if a[0] == b[0] {
        if k: nat :| FirstDifference(a[1..], b[1..], k) {
          assert a[..k + 1] == [a[0]] + a[1..][..k] && b[..k + 1] == [b[0]] + b[1..][..k];
          assert FirstDifference(a, b, k + 1);
        }
        if k: nat :| FirstDifference(a, b, k) {
          assert k > 0;
          assert a[1..][..k - 1] == a[..k][1..] && b[1..][..k - 1] == b[..k][1..];
          assert FirstDifference(a[1..], b[1..], k - 1);
        }
      }
    }
  }

  lemma {:induction false} LexTotal(a: Bytes, b: Bytes)
    ensures LexLess(a, b) || a == b || LexLess(b, a)
    ensures !(LexLess(a, b) && LexLess(b, a)) && !LexLess(a, a)
  {
    if a != [] {
      LexTotal(a[1..], a[1..]);
      if b != [] {
        LexTotal(a[1..], b[1..]);
        assert a[0] == b[0] && a[1..] == b[1..] ==> a == [a[0]] + a[1..] == [b[0]] + b[1..] == b;
      }
    }
  }

  lemma {:induction false} LexTransitive(a: Bytes, b: Bytes, c: Bytes)
    requires LexLess(a, b) && LexLess(b, c)
    ensures LexLess(a, c)
  {
    if a != [] {
      if a[0] == b[0] == c[0] {
        LexTransitive(a[1..], b[1..], c[1..]);
      }
    }
  }
}
