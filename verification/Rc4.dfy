/** The stream cipher both ends of the instance protocol use.
  *
  * State is what the module globals hold.  The keystream is a function of key and
  * position alone, the box stays a permutation of the bytes through set-up and use, and
  * encoding twice under one key gives the data back.
  */
module Rc4 {
  import opened Options

  const SIZE: nat := 256

  /** The globals i, j and SBox. */
  datatype State = State(i: nat, j: nat, box: seq<nat>)

  function Swap(s: seq<nat>, a: nat, b: nat): (r: seq<nat>)
    requires a < |s| && b < |s|
    ensures |r| == |s|
  {
    s[a := s[b]][b := s[a]]
  }

  /** Every byte occurs, and occurs once. */
  predicate Permutation(s: seq<nat>) {
    && |s| == SIZE
    && (forall k: nat | k < SIZE :: s[k] < SIZE)
    && (forall k: nat, m: nat | k < m < SIZE :: s[k] != s[m])
    && (forall v: nat | v < SIZE :: v in s)
  }

  lemma {:induction false} SwapPermutes(s: seq<nat>, a: nat, b: nat)
    requires Permutation(s) && a < SIZE && b < SIZE
    ensures Permutation(Swap(s, a, b))
  {
    var r := Swap(s, a, b);
    forall v: nat | v < SIZE ensures v in r {
      assert v in s;
      var k :| 0 <= k < SIZE && s[k] == v;
      assert r[if k == a then b else if k == b then a else k] == v;
    }
  }

  lemma {:induction false} SwapTwice(s: seq<nat>, a: nat, b: nat)
    requires a < |s| && b < |s|
    ensures Swap(Swap(s, a, b), a, b) == s
  {
  }

  function Identity(): (s: seq<nat>)
    ensures |s| == SIZE && forall k: nat | k < SIZE :: s[k] == k
  {
    seq(SIZE, k => k)
  }

  lemma {:induction false} IdentityPermutes()
    ensures Permutation(Identity())
  {
    forall v: nat | v < SIZE ensures v in Identity() {
      assert Identity()[v] == v;
    }
  }

  // ------------------------------------------------------------------- key set-up

  /** Byte n of the key, repeated as often as needed. */
  function KeyByte(key: string, n: nat): nat
    requires key != ""
  {
    key[n % |key|] as nat
  }

  /** The box and j after n rounds of mixing the key in. */
  function Mixed(key: string, n: nat): (r: (seq<nat>, nat))
    requires key != "" && n <= SIZE
    ensures Permutation(r.0) && r.1 < SIZE
  {
    if n == 0 then
      IdentityPermutes();
      (Identity(), 0)
    else
      var (box, j) := Mixed(key, n - 1);
      var j' := (j + box[n - 1] + KeyByte(key, n - 1)) % SIZE;
      SwapPermutes(box, n - 1, j');
      (Swap(box, n - 1, j'), j')
  }

  lemma {:induction false} NothingMixed(key: string)
    requires key != ""
    ensures Mixed(key, 0) == (Identity(), 0)
  {
  }

  lemma {:induction false} MixedStep(key: string, n: nat)
    requires key != "" && n < SIZE
    ensures var (box, j) := Mixed(key, n); var (box', j') := Mixed(key, n + 1);
      && |box| == SIZE && j' == (j + box[n] + KeyByte(key, n)) % SIZE && box' == Swap(box, n, j')
  {
  }

  /** Keys that agree byte for byte up to k set up the same box for k rounds. */
  lemma {:induction false} SameKeyBytes(key: string, other: string, k: nat)
    requires key != "" && other != "" && k <= SIZE
    requires forall n: nat | n < k :: KeyByte(key, n) == KeyByte(other, n)
    ensures Mixed(key, k) == Mixed(other, k)
    decreases k
  {
    hide Permutation, KeyByte;
    if k > 0 {
      SameKeyBytes(key, other, k - 1);
    }
  }

  /** The first byte in which two keys differ, modulo 256, shows in the next round. */
  lemma {:induction false} KeyByteShows(key: string, other: string, k: nat)
    requires key != "" && other != "" && k < SIZE
    requires forall n: nat | n < k :: key[n % |key|] == other[n % |other|]
    ensures Mixed(key, k + 1).1 == Mixed(other, k + 1).1 <==>
      key[k % |key|] as nat % SIZE == other[k % |other|] as nat % SIZE
    ensures Mixed(key, k + 1) == Mixed(other, k + 1) <==>
      key[k % |key|] as nat % SIZE == other[k % |other|] as nat % SIZE
  {
    hide Mixed, Permutation;
    ByteShows(key, other, k);
  }

  lemma {:induction false} ByteShows(key: string, other: string, k: nat)
    requires key != "" && other != "" && k < SIZE
    requires forall n: nat | n < k :: KeyByte(key, n) == KeyByte(other, n)
    ensures Mixed(key, k + 1).1 == Mixed(other, k + 1).1 <==> KeyByte(key, k) % SIZE == KeyByte(other, k) % SIZE
    ensures Mixed(key, k + 1) == Mixed(other, k + 1) <==> KeyByte(key, k) % SIZE == KeyByte(other, k) % SIZE
  {
    var (box, j) := Mixed(key, k);
    assert |box| == SIZE;
    hide Permutation, KeyByte;
    SameKeyBytes(key, other, k);
    AddShows(j + box[k], KeyByte(key, k), KeyByte(other, k));
  }

  lemma {:induction false} AddShows(a: nat, x: nat, y: nat)
    ensures (a + x) % SIZE == (a + y) % SIZE <==> x % SIZE == y % SIZE
  {
  }

  /** generateKey leaves i at the end of its last loop. */
  function Keyed(key: string): (s: State)
    requires key != ""
    ensures Permutation(s.box)
  {
    State(SIZE - 1, Mixed(key, SIZE).1, Mixed(key, SIZE).0)
  }

  // -------------------------------------------------------------------- keystream

  predicate Ready(s: State) {
    Permutation(s.box) && s.i < SIZE && s.j < SIZE
  }

  function Next(s: State): (r: State)
    requires Ready(s)
    ensures Ready(r)
  {
    var i := (s.i + 1) % SIZE;
    var j := (s.j + s.box[i]) % SIZE;
    SwapPermutes(s.box, i, j);
    State(i, j, Swap(s.box, i, j))
  }

  function Output(s: State): (g: nat)
    requires Ready(s)
    ensures g < SIZE
  {
    s.box[(s.box[s.i] + s.box[s.j]) % SIZE]
  }

  /** The state before Next: nothing about the past is lost. */
  function Previous(s: State): State
    requires Ready(s)
  {
    var box := Swap(s.box, s.i, s.j);
    State((s.i + SIZE - 1) % SIZE, (s.j + SIZE - box[s.i]) % SIZE, box)
  }

  lemma {:induction false} NextIsReversible(s: State)
    requires Ready(s)
    ensures Previous(Next(s)) == s
  {
    var i := (s.i + 1) % SIZE;
    var j := (s.j + s.box[i]) % SIZE;
    SwapTwice(s.box, i, j);
  }

  /** Two states that step to the same state are the same. */
  lemma {:induction false} NextIsInjective(s: State, t: State)
    requires Ready(s) && Ready(t) && Next(s) == Next(t)
    ensures s == t
  {
    NextIsReversible(s);
    NextIsReversible(t);
  }

  /** The state when n bytes of keystream were taken. */
  function After(key: string, n: nat): (s: State)
    requires key != ""
    ensures Ready(s)
  {
    if n == 0 then State(0, 0, Keyed(key).box) else Next(After(key, n - 1))
  }

  /** Byte n of the keystream. */
  function Stream(key: string, n: nat): (g: nat)
    requires key != ""
    ensures g < SIZE
  {
    Output(After(key, n + 1))
  }

  // ---------------------------------------------------------------------- encoding

  /** Byte n of the keystream, as the bits it flips. */
  function Mask(key: string, n: nat): bv8
    requires key != ""
  {
    Stream(key, n) as bv8
  }

  function Encoded(key: string, data: seq<bv8>): (r: seq<bv8>)
    requires key != ""
    ensures |r| == |data|
    ensures forall k: nat | k < |data| :: r[k] == data[k] ^ Mask(key, k)
  {
    seq(|data|, k requires 0 <= k < |data| => data[k] ^ Mask(key, k))
  }

  lemma {:induction false} XorBack(x: bv8, g: bv8)
    ensures x ^ g ^ g == x
  {
  }

  lemma {:induction false} XorSame(x: bv8, g: bv8, h: bv8)
    ensures (x ^ g) ^ h == x ==> g == h
  {
    assert h == x ^ (x ^ h);
    assert g == x ^ (x ^ g);
    assert (x ^ g) ^ h == x ==> x ^ g == x ^ h;
  }

  lemma {:induction false} XorVia(x: bv8, g: bv8, c: bv8, h: bv8, e: bv8)
    requires c == x ^ g && e == c ^ h
    ensures e == x <==> g == h
  {
    XorSame(x, g, h);
    XorBack(x, g);
  }

  lemma {:induction false} EncodeTwice(key: string, data: seq<bv8>)
    requires key != ""
    ensures Encoded(key, Encoded(key, data)) == data
  {
    hide Mask;
    forall k: nat | k < |data| ensures Encoded(key, Encoded(key, data))[k] == data[k] {
      XorBack(data[k], Mask(key, k));
    }
  }

  /** Under two keys the data comes back exactly when the keystreams agree over its
    * length. */
  lemma {:induction false} EncodeBackIff(key: string, other: string, data: seq<bv8>)
    requires key != "" && other != ""
    ensures Encoded(other, Encoded(key, data)) == data <==>
      forall k: nat | k < |data| :: Mask(key, k) == Mask(other, k)
  {
    hide Mask, Encoded;
    var r := Encoded(other, Encoded(key, data));
    forall k: nat | k < |data| ensures r[k] == data[k] <==> Mask(key, k) == Mask(other, k) {
      BackAt(key, other, data, k);
    }
    if forall k: nat | k < |data| :: Mask(key, k) == Mask(other, k) {
      assert r == data;
    }
  }

  lemma {:induction false} BackAt(key: string, other: string, data: seq<bv8>, k: nat)
    requires key != "" && other != "" && k < |data|
    ensures Encoded(other, Encoded(key, data))[k] == data[k] <==> Mask(key, k) == Mask(other, k)
  {
    hide *;
    var once := Encoded(key, data);
    var twice := Encoded(other, once);
    XorVia(data[k], Mask(key, k), once[k], Mask(other, k), twice[k]);
  }

  /** What is encoded first does not depend on what follows. */
  lemma {:induction false} EncodesPrefix(key: string, data: seq<bv8>, n: nat)
    requires key != "" && n <= |data|
    ensures Encoded(key, data)[..n] == Encoded(key, data[..n])
  {
    hide Mask;
  }

  // ---------------------------------------------------------------- the program

  class Cipher {
    var i: nat
    var j: nat
    var sbox: seq<nat>

    constructor ()
      ensures i == 0 && j == 0 && sbox == []
    {
      i, j, sbox := 0, 0, [];
    }

    /** generateKey; an empty key ends in a division by zero. */
    method GenerateKey(key: string) returns (ok: bool)
      modifies this
      ensures ok == (key != "")
      ensures ok ==> State(i, j, sbox) == Keyed(key)
    {
      hide Permutation, Mixed;
      sbox := [];
      i := 0;
      while i < SIZE
        invariant i <= SIZE && |sbox| == i && forall k: nat | k < i :: sbox[k] == k
      {
        sbox := sbox + [i];
        i := i + 1;
      }
      assert sbox == Identity();
      if key == "" {
        return false;
      }
      var kbox: seq<nat> := [];
      i := 0;
      while i < SIZE
        invariant i <= SIZE && |kbox| == i
        invariant forall k: nat | k < i :: kbox[k] == key[k % |key|] as nat
        invariant sbox == Identity()
      {
        kbox := kbox + [key[i % |key|] as nat];
        i := i + 1;
      }
      j := 0;
      i := 0;
      NothingMixed(key);
      while i < SIZE
        invariant i <= SIZE && |sbox| == SIZE && (sbox, j) == Mixed(key, i)
        invariant |kbox| == SIZE && forall k: nat | k < SIZE :: kbox[k] == key[k % |key|] as nat
      {
        MixedStep(key, i);
        j := (j + sbox[i] + kbox[i]) % SIZE;
        var tmp := sbox[i];
        sbox := sbox[i := sbox[j]];
        sbox := sbox[j := tmp];
        i := i + 1;
      }
      i := SIZE - 1;
      return true;
    }

    method GetByte() returns (g: nat)
      requires Ready(State(i, j, sbox))
      modifies this
      ensures State(i, j, sbox) == Next(old(State(i, j, sbox)))
      ensures Ready(State(i, j, sbox)) && g == Output(State(i, j, sbox))
    {
      ghost var s := State(i, j, sbox);
      ghost var r := Next(s);
      i := (i + 1) % SIZE;
      j := (j + sbox[i]) % SIZE;
      var tmp := sbox[i];
      sbox := sbox[i := sbox[j]];
      sbox := sbox[j := tmp];
      assert State(i, j, sbox) == r;
      return sbox[(sbox[i] + sbox[j]) % SIZE];
    }

    /** encode: whatever the globals held before. */
    method Encode(key: string, data: seq<bv8>) returns (r: Option<seq<bv8>>)
      modifies this
      ensures r == if key == "" then None else Some(Encoded(key, data))
    {
      hide Permutation, Next, Output, Keyed, Ready;
      var ok := GenerateKey(key);
      if !ok {
        return None;
      }
      i := 0;
      j := 0;
      var retval := [];
      var m := 0;
      while m < |data|
        invariant m <= |data| && |retval| == m
        invariant State(i, j, sbox) == After(key, m)
        invariant forall k: nat | k < m :: retval[k] == Encoded(key, data)[k]
      {
        var g := GetByte();
        assert g as bv8 == Mask(key, m);
        retval := retval + [data[m] ^ (g as bv8)];
        m := m + 1;
      }
      assert retval == Encoded(key, data);
      return Some(retval);
    }
  }
}
