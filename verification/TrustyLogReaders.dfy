/**
Several readers of the Trusty log on the one line buffer: the kernel log reader and the
readers of the log file, which take no lock. Each show stores the characters of its line
one by one, then a NUL, and then prints the buffer.
*/
module TrustyLogReaders {
  import opened TrustyLogSink

  // Show c reads a line of len(c) characters; texts(c, i) is the i-th of them.
  type Lengths = nat -> nat
  type Texts = (nat, nat) -> char

  ghost predicate Fits(len: Lengths) { forall c :: len(c) < LINE_BUFFER_SIZE }

  ghost predicate NoNuls(texts: Texts) { forall c, i :: texts(c, i) != '\0' }

  function LineOf(texts: Texts, c: nat, n: nat): (s: string)
    ensures |s| == n && forall i :: 0 <= i < n ==> s[i] == texts(c, i)
  {
    seq(n, i requires 0 <= i => texts(c, i))
  }

  // An interleaving: which show makes the next step. How many steps show c has made among the first k.
  function Made(order: seq<nat>, k: nat, c: nat): nat
    requires k <= |order|
  {
    if k == 0 then 0 else Made(order, k - 1, c) + if order[k - 1] == c then 1 else 0
  }

  // The k-th step is the print of its show: after all characters and the NUL.
  predicate IsPrint(len: Lengths, order: seq<nat>, k: nat) {
    k < |order| && Made(order, k, order[k]) == len(order[k]) + 1
  }

  // The buffer, allocated zeroed, after k steps.
  function Buffer(len: Lengths, order: seq<nat>, texts: Texts, k: nat): (b: seq<char>)
    requires k <= |order|
    ensures |b| == LINE_BUFFER_SIZE
  {
    if k == 0 then seq(LINE_BUFFER_SIZE, _ => '\0')
    else
      var b, c := Buffer(len, order, texts, k - 1), order[k - 1];
      var j := Made(order, k - 1, c);
      if j >= LINE_BUFFER_SIZE || j > len(c) then b
      else b[j := if j < len(c) then texts(c, j) else '\0']
  }

  // ----- what stays of whose line -----

  datatype Store = Nul | Char(c: nat)

  // The last store at position i among the first k steps.
  function Last(len: Lengths, order: seq<nat>, k: nat, i: nat): Store
    requires k <= |order|
  {
    if k == 0 then Nul
    else
      var c := order[k - 1];
      if Made(order, k - 1, c) != i || i > len(c) then Last(len, order, k - 1, i)
      else if i < len(c) then Char(c) else Nul
  }

  // At step k, the last store at each position of show c's line is its own, and a NUL follows.
  predicate Own(len: Lengths, order: seq<nat>, k: nat, c: nat)
    requires k <= |order|
  {
    (forall i :: 0 <= i < len(c) ==> Last(len, order, k, i) == Char(c)) && Last(len, order, k, len(c)) == Nul
  }

  lemma {:induction false} BufferAt(len: Lengths, order: seq<nat>, texts: Texts, k: nat, i: nat)
    requires k <= |order| && i < LINE_BUFFER_SIZE
    ensures Buffer(len, order, texts, k)[i] == match Last(len, order, k, i) case Nul => '\0' case Char(c) => texts(c, i)
  {
    if k > 0 { BufferAt(len, order, texts, k - 1, i); }
  }

  lemma {:induction false} CStrIs(b: seq<char>, s: string)
    requires '\0' !in s && '\0' in b
    ensures CStr(b) == s <==> |s| < |b| && b[..|s|] == s && b[|s|] == '\0'
  {
    if b[0] == '\0' {
    } else if s == [] {
    } else {
      CStrIs(b[1..], s[1..]);
      assert CStr(b) == s <==> b[0] == s[0] && CStr(b[1..]) == s[1..] by {
        assert s == [s[0]] + s[1..];
        if CStr(b) == s { assert CStr(b)[1..] == s[1..]; }
      }
      if |s| < |b| { assert b[..|s|] == [b[0]] + b[1..][..|s| - 1]; }
    }
  }

  lemma PrintIs(b: seq<char>, s: string)
    requires '\0' !in s && |s| < |b| && b[|b| - 1] == '\0'
    ensures CStr(b) == s <==> (forall i :: 0 <= i < |s| ==> b[i] == s[i]) && b[|s|] == '\0'
  {
    CStrIs(b, s);
    hide CStr;
    if forall i :: 0 <= i < |s| ==> b[i] == s[i] { assert b[..|s|] == s; }
  }

  // A print puts out its show's line whole.
  ghost predicate Whole(len: Lengths, order: seq<nat>, texts: Texts, k: nat)
    requires k < |order|
  {
    CStr(Buffer(len, order, texts, k)) == LineOf(texts, order[k], len(order[k]))
  }

  ghost predicate AllWhole(len: Lengths, order: seq<nat>, texts: Texts) {
    forall k :: 0 <= k < |order| && IsPrint(len, order, k) ==> Whole(len, order, texts, k)
  }

  // The last position of the buffer is never given a character.
  lemma {:induction false} EndsInNul(len: Lengths, order: seq<nat>, texts: Texts, k: nat)
    requires Fits(len) && k <= |order|
    ensures Buffer(len, order, texts, k)[LINE_BUFFER_SIZE - 1] == '\0'
  {
    if k > 0 { EndsInNul(len, order, texts, k - 1); }
  }

  lemma WholeWhere(len: Lengths, order: seq<nat>, texts: Texts, k: nat)
    requires Fits(len) && NoNuls(texts) && k < |order|
    ensures var b, c := Buffer(len, order, texts, k), order[k];
      Whole(len, order, texts, k) <==> (forall i :: 0 <= i < len(c) ==> b[i] == texts(c, i)) && b[len(c)] == '\0'
  {
    var b, c := Buffer(len, order, texts, k), order[k];
    EndsInNul(len, order, texts, k);
    hide Buffer, CStr;
    PrintIs(b, LineOf(texts, c, len(c)));
  }

  lemma OwnWhole(len: Lengths, order: seq<nat>, texts: Texts, k: nat)
    requires Fits(len) && NoNuls(texts) && k < |order| && Own(len, order, k, order[k])
    ensures Whole(len, order, texts, k)
  {
    WholeWhere(len, order, texts, k);
    hide Buffer, Last, Whole;
    forall i: nat | i <= len(order[k]) { BufferAt(len, order, texts, k, i); }
  }

  // Lines that tell show c from all others.
  function Marked(c: nat): Texts { (d: nat, i: nat) => if d == c then 'a' else 'b' }

  lemma NotOwnTorn(len: Lengths, order: seq<nat>, k: nat)
    requires Fits(len) && k < |order| && !Own(len, order, k, order[k])
    ensures NoNuls(Marked(order[k])) && !Whole(len, order, Marked(order[k]), k)
  {
    var c, texts := order[k], Marked(order[k]);
    WholeWhere(len, order, texts, k);
    hide Buffer, Last, Whole;
    forall i: nat | i <= len(c) { BufferAt(len, order, texts, k, i); }
  }

  // ----- in terms of the order alone -----

  // The position at which the j-th step stores.
  function Pos(order: seq<nat>, j: nat): nat
    requires j < |order|
  {
    Made(order, j, order[j])
  }

  // The j-th step stores a character, or the NUL, at position i.
  predicate CharAt(len: Lengths, order: seq<nat>, j: nat, i: nat) {
    j < |order| && Pos(order, j) == i && i < len(order[j])
  }

  predicate NulAt(len: Lengths, order: seq<nat>, j: nat, i: nat) {
    j < |order| && Pos(order, j) == i && i == len(order[j])
  }

  // After a character of show order[k] is stored, nothing is stored at that position before
  // step k; the show itself stores there only once.
  ghost predicate Spared(len: Lengths, order: seq<nat>, k: nat)
    requires k < |order|
  {
    forall a, j :: 0 <= a < j < k && order[a] == order[k] && CharAt(len, order, a, Pos(order, a)) ==>
      !CharAt(len, order, j, Pos(order, a)) && !NulAt(len, order, j, Pos(order, a))
  }

  // A character stored behind the line of show order[k] is replaced by a NUL before step k.
  ghost predicate Closed(len: Lengths, order: seq<nat>, k: nat)
    requires k < |order|
  {
    var n := len(order[k]);
    forall j :: 0 <= j < k && CharAt(len, order, j, n) ==> exists e :: j < e < k && NulAt(len, order, e, n)
  }

  // The step that made the last store at position i, or k if there is none.
  lemma {:induction false} LastStore(len: Lengths, order: seq<nat>, k: nat, i: nat) returns (j: nat)
    requires k <= |order|
    ensures j <= k && (j < k ==> CharAt(len, order, j, i) || NulAt(len, order, j, i))
    ensures forall e :: 0 <= e < k && (e > j || j == k) ==> !CharAt(len, order, e, i) && !NulAt(len, order, e, i)
    ensures Last(len, order, k, i) == if j < k && CharAt(len, order, j, i) then Char(order[j]) else Nul
  {
    if k == 0 {
      j := 0;
    } else if CharAt(len, order, k - 1, i) || NulAt(len, order, k - 1, i) {
      j := k - 1;
    } else {
      j := LastStore(len, order, k - 1, i);
      if j == k - 1 { j := k; }
    }
  }

  // Show c has made its i-th store.
  lemma {:induction false} StoreMade(order: seq<nat>, k: nat, c: nat, i: nat) returns (a: nat)
    requires k <= |order| && i < Made(order, k, c)
    ensures a < k && order[a] == c && Pos(order, a) == i
  {
    if order[k - 1] == c && Made(order, k - 1, c) == i {
      a := k - 1;
    } else {
      a := StoreMade(order, k - 1, c, i);
    }
  }

  lemma {:induction false} MadeGrows(order: seq<nat>, a: nat, k: nat, c: nat)
    requires a < k <= |order| && order[a] == c
    ensures Made(order, a, c) < Made(order, k, c)
    decreases k
  {
    if a < k - 1 { MadeGrows(order, a, k - 1, c); }
  }

  // A show stores once at each position.
  lemma OneStore(order: seq<nat>, a: nat, j: nat)
    requires a < j < |order| && order[a] == order[j]
    ensures Pos(order, a) < Pos(order, j)
  {
    MadeGrows(order, a, j, order[a]);
  }

  lemma OwnChar(len: Lengths, order: seq<nat>, k: nat, i: nat)
    requires IsPrint(len, order, k) && i < len(order[k])
    ensures Spared(len, order, k) ==> Last(len, order, k, i) == Char(order[k])
  {
    var c := order[k];
    var a := StoreMade(order, k, c, i);
    var j := LastStore(len, order, k, i);
    hide Made, Last;
    assert CharAt(len, order, a, Pos(order, a));
  }

  lemma CharOwn(len: Lengths, order: seq<nat>, k: nat, a: nat, e: nat)
    requires IsPrint(len, order, k) && Own(len, order, k, order[k]) && a < e < k
    requires order[a] == order[k] && CharAt(len, order, a, Pos(order, a))
    ensures !CharAt(len, order, e, Pos(order, a)) && !NulAt(len, order, e, Pos(order, a))
  {
    var c, i := order[k], Pos(order, a);
    var j := LastStore(len, order, k, i);
    assert Last(len, order, k, i) == Char(c);
    hide Last;
    if a < j { OneStore(order, a, j); }
    hide Pos;
  }

  lemma NulClosed(len: Lengths, order: seq<nat>, k: nat)
    requires IsPrint(len, order, k)
    ensures Closed(len, order, k) <==> Last(len, order, k, len(order[k])) == Nul
  {
    var n := len(order[k]);
    var j := LastStore(len, order, k, n);
    hide Made, Last, Pos;
    if j < k && NulAt(len, order, j, n) {
      forall e | 0 <= e < k && CharAt(len, order, e, n) ensures exists f :: e < f < k && NulAt(len, order, f, n) {
        assert e < j;
      }
    }
  }

  lemma OwnExact(len: Lengths, order: seq<nat>, k: nat)
    requires IsPrint(len, order, k)
    ensures Own(len, order, k, order[k]) <==> Spared(len, order, k) && Closed(len, order, k)
  {
    NulClosed(len, order, k);
    hide Last, Made, Pos, Closed, IsPrint, CharAt, NulAt;
    if Spared(len, order, k) {
      forall i | 0 <= i < len(order[k]) ensures Last(len, order, k, i) == Char(order[k]) { OwnChar(len, order, k, i); }
    }
    if Own(len, order, k, order[k]) {
      forall a, j | 0 <= a < j < k && order[a] == order[k] && CharAt(len, order, a, Pos(order, a))
        ensures !CharAt(len, order, j, Pos(order, a)) && !NulAt(len, order, j, Pos(order, a))
      {
        CharOwn(len, order, k, a, j);
      }
    }
  }

  /** Whatever the lines, every show prints its own, exactly when between the store of each of its characters and
      its print no other show stores at that position, and a character that another show stores behind its
      line is replaced by a NUL before the print. */
  lemma ReadersExact(len: Lengths, order: seq<nat>)
    requires Fits(len)
    ensures (forall texts: Texts :: NoNuls(texts) ==> AllWhole(len, order, texts))
      <==> (forall k :: 0 <= k < |order| && IsPrint(len, order, k) ==>
              Spared(len, order, k) && Closed(len, order, k))
  {
    hide Own, Whole, IsPrint, NoNuls, Spared, Closed;
    forall k | 0 <= k < |order| && IsPrint(len, order, k)
      ensures Own(len, order, k, order[k]) <==> Spared(len, order, k) && Closed(len, order, k)
    {
      OwnExact(len, order, k);
    }
    OwnsExact(len, order);
  }

  lemma OwnsExact(len: Lengths, order: seq<nat>)
    requires Fits(len)
    ensures (forall texts: Texts :: NoNuls(texts) ==> AllWhole(len, order, texts))
      <==> (forall k :: 0 <= k < |order| && IsPrint(len, order, k) ==> Own(len, order, k, order[k]))
  {
    hide Own, Whole, IsPrint, NoNuls;
    forall k | 0 <= k < |order| && IsPrint(len, order, k) && !Own(len, order, k, order[k])
      ensures !AllWhole(len, order, Marked(order[k])) && NoNuls(Marked(order[k]))
    {
      NotOwnTorn(len, order, k);
    }
    if forall k :: 0 <= k < |order| && IsPrint(len, order, k) ==> Own(len, order, k, order[k]) {
      forall texts: Texts | NoNuls(texts) ensures AllWhole(len, order, texts) {
        forall k | 0 <= k < |order| && IsPrint(len, order, k) ensures Whole(len, order, texts, k) {
          OwnWhole(len, order, texts, k);
        }
      }
    }
  }

  // ----- one reader at a time -----

  // The steps of the show that prints at step k are the last ones, with no other between.
  predicate Undisturbed(len: Lengths, order: seq<nat>, k: nat) {
    k < |order| && len(order[k]) < k && forall j :: k - len(order[k]) - 1 <= j < k ==> order[j] == order[k]
  }

  lemma {:induction false} OwnSteps(len: Lengths, order: seq<nat>, from: nat, k: nat, c: nat)
    requires from <= k <= |order| && k - from <= len(c) + 1 && Made(order, from, c) == 0
    requires forall i :: from <= i < k ==> order[i] == c
    ensures Made(order, k, c) == k - from
    ensures forall i :: 0 <= i < k - from && i < len(c) ==> Last(len, order, k, i) == Char(c)
    ensures k - from == len(c) + 1 ==> Last(len, order, k, len(c)) == Nul
    decreases k
  {
    if k > from { OwnSteps(len, order, from, k - 1, c); }
  }

  lemma {:induction false} MadeBefore(order: seq<nat>, from: nat, c: nat, j: nat)
    requires from + j <= |order| && forall i :: from <= i < from + j ==> order[i] == c
    ensures Made(order, from + j, c) == Made(order, from, c) + j
    decreases j
  {
    if j > 0 { MadeBefore(order, from, c, j - 1); }
  }

  /** With one reader at a time every line is printed whole. */
  lemma OneAtATime(len: Lengths, order: seq<nat>, texts: Texts)
    requires Fits(len) && NoNuls(texts)
    requires forall k :: 0 <= k < |order| && IsPrint(len, order, k) ==> Undisturbed(len, order, k)
    ensures AllWhole(len, order, texts)
  {
    hide Whole;
    forall k | 0 <= k < |order| && IsPrint(len, order, k) ensures Whole(len, order, texts, k) {
      var c := order[k];
      var from := k - len(c) - 1;
      MadeBefore(order, from, c, len(c) + 1);
      OwnSteps(len, order, from, k, c);
      OwnWhole(len, order, texts, k);
    }
  }

  /** Two shows of one character each: 0 stores its line, 1 stores its own, and 0 prints the line of 1. */
  lemma TwoReadersTear()
    ensures var len, order := (_: nat) => 1, [0, 0, 1, 1, 0];
      && IsPrint(len, order, 4) && !Spared(len, order, 4)
      && LineOf(Marked(0), 0, 1) == "a" && CStr(Buffer(len, order, Marked(0), 4)) == "b"
  {
    var len, order := (_: nat) => 1, [0, 0, 1, 1, 0];
    assert Made(order, 1, 0) == 1 && Made(order, 2, 0) == 2 && Made(order, 2, 1) == 0;
    assert Made(order, 3, 0) == 2 && Made(order, 3, 1) == 1 && Made(order, 4, 0) == 2;
    assert Last(len, order, 2, 0) == Char(0) && Last(len, order, 3, 0) == Char(1) && Last(len, order, 4, 0) == Char(1);
    assert Last(len, order, 3, 1) == Nul && Last(len, order, 4, 1) == Nul;
    var b := Buffer(len, order, Marked(0), 4);
    BufferAt(len, order, Marked(0), 4, 0);
    BufferAt(len, order, Marked(0), 4, 1);
    assert b[..1] == "b";
    CStrIs(b, "b");
    assert CharAt(len, order, 0, 0) && CharAt(len, order, 2, 0) && Pos(order, 0) == 0;
  }
}
