/** Dotted names as byte strings: `split('.')`, its inverse, and ASCII lower case. */
module Names {
  import opened Bytes

  type Label = seq<u8>
  type Name = seq<u8>

  const DOT: u8 := 46

  /** `str::split('.')`: never empty, and an empty name has one empty label. */
  function Split(name: Name): (labels: seq<Label>)
    ensures |labels| > 0
    ensures forall l | l in labels :: DOT !in l
  {
    if name == [] then [[]]
    else
      var rest := Split(name[1..]);
      if name[0] == DOT then [[]] + rest
      else [[name[0]] + rest[0]] + rest[1..]
  }

  function Join(labels: seq<Label>): Name {
    if labels == [] then []
    else if |labels| == 1 then labels[0]
    else labels[0] + [DOT] + Join(labels[1..])
  }

  /** Labels are joined by a dot, byte 46. */
  lemma JoinStep(l: Label, rest: seq<Label>)
    requires rest != []
    ensures Join([l] + rest) == l + [46] + Join(rest)
  {
    assert ([l] + rest)[1..] == rest;
  }

  lemma {:induction false} JoinOfSplit(name: Name)
    ensures Join(Split(name)) == name
  {
    if name != [] {
      JoinOfSplit(name[1..]);
      var rest := Split(name[1..]);
      assert name == [name[0]] + name[1..];
      if name[0] == DOT {
        assert ([[]] + rest)[1..] == rest;
        assert [] + [DOT] + Join(rest) == [DOT] + Join(rest);
      } else {
        JoinExtendsFirst(name[0], rest);
      }
    }
  }

  lemma JoinExtendsFirst(b: u8, labels: seq<Label>)
    requires labels != []
    ensures Join([[b] + labels[0]] + labels[1..]) == [b] + Join(labels)
  {
    var longer := [[b] + labels[0]] + labels[1..];
    assert longer[1..] == labels[1..];
    if |labels| > 1 {
      Assoc([b], labels[0], [DOT]);
      Assoc([b], labels[0] + [DOT], Join(labels[1..]));
    }
  }

  /** Appending a label the way the readers do, with the dot in front of it. */
  lemma {:induction false} JoinAppend(labels: seq<Label>, l: Label)
    ensures Join(labels + [l]) == Join(labels) + (if labels == [] then [] else [DOT]) + l
  {
    if labels == [] {
      assert [] + [l] == [l];
    } else {
      JoinAppend(labels[1..], l);
      assert (labels + [l])[1..] == labels[1..] + [l];
      if |labels| == 1 {
        assert labels[1..] == [];
      }
    }
  }

  function LowerByte(b: u8): u8 {
    if 65 <= b <= 90 then b + 32 else b
  }

  /** The letters from A to Z become those from a to z, and every other byte stays. */
  lemma LowerLetters(i: nat, b: u8)
    requires i < 26
    ensures LowerByte(65 + i) == 97 + i
    ensures LowerByte(b) != b <==> 65 <= b < 65 + 26
  {
  }

  function Lower(bs: seq<u8>): (r: seq<u8>)
    ensures |r| == |bs| && forall i | 0 <= i < |bs| :: r[i] == LowerByte(bs[i])
  {
    seq(|bs|, i requires 0 <= i < |bs| => LowerByte(bs[i]))
  }

  function LowerAll(labels: seq<Label>): (r: seq<Label>)
    ensures |r| == |labels| && forall i | 0 <= i < |labels| :: r[i] == Lower(labels[i])
  {
    seq(|labels|, i requires 0 <= i < |labels| => Lower(labels[i]))
  }

  /** Lower-casing commutes with joining. */
  lemma {:induction false} JoinOfLower(labels: seq<Label>)
    ensures Join(LowerAll(labels)) == Lower(Join(labels))
  {
    if labels != [] {
      JoinOfLower(labels[1..]);
      assert LowerAll(labels)[1..] == LowerAll(labels[1..]);
    }
  }
}
