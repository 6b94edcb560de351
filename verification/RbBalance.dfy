/** The red-black conditions: on trees, on contexts, how they meet, and the height bound they give. */
module RbBalance {
  import opened RbShape

  ghost predicate IsRed(t: Tree) {
    t.T? && t.c == Red
  }

  /** Number of black nodes on the leftmost path. */
  ghost function Blacks(t: Tree): nat {
    match t
    case E => 0
    case T(l, _, c, _) => Blacks(l) + (if c == Black then 1 else 0)
  }

  /** Every path from the root to a leaf has the same number of black nodes. */
  ghost predicate Balanced(t: Tree) {
    match t
    case E => true
    case T(l, _, _, r) => Balanced(l) && Balanced(r) && Blacks(l) == Blacks(r)
  }

  /** No red node has a red child. */
  ghost predicate NoRedRed(t: Tree) {
    match t
    case E => true
    case T(l, _, c, r) => NoRedRed(l) && NoRedRed(r) && (c == Red ==> !IsRed(l) && !IsRed(r))
  }

  /** No red node strictly below the root has a red child. */
  ghost predicate NoRedRedBelow(t: Tree) {
    t.T? ==> NoRedRed(t.l) && NoRedRed(t.r)
  }

  ghost predicate IsRedBlack(t: Tree) {
    Balanced(t) && NoRedRed(t) && !IsRed(t)
  }

  /** The context `z` is balanced once its hole holds a balanced tree with `h` blacks on each path. */
  ghost predicate ZipBalanced(z: Zip, h: nat) {
    match z
    case Top => true
    case In(_, _, c, sib, up) =>
      Balanced(sib) && Blacks(sib) == h && ZipBalanced(up, h + (if c == Black then 1 else 0))
  }

  /** The context `z` has no red node with a red child when the root of its hole is red or not. */
  ghost predicate ZipNoRedRed(z: Zip, holeRed: bool) {
    match z
    case Top => true
    case In(_, _, c, sib, up) =>
      NoRedRed(sib) && (c == Red ==> !IsRed(sib) && !holeRed) && ZipNoRedRed(up, c == Red)
  }

  /** The outermost node of the context is black. */
  ghost predicate TopBlack(z: Zip) {
    match z
    case Top => true
    case In(_, _, c, _, up) => if up.Top? then c == Black else TopBlack(up)
  }

  lemma {:induction false} BalancedPlug(z: Zip, t: Tree)
    ensures Balanced(Plug(z, t)) <==> Balanced(t) && ZipBalanced(z, Blacks(t))
  {
    match z
    case Top =>
    case In(left, n, c, sib, up) =>
      BalancedPlug(up, Join(left, t, n, c, sib));
  }

  lemma {:induction false} NoRedRedPlug(z: Zip, t: Tree)
    ensures NoRedRed(Plug(z, t)) <==> NoRedRed(t) && ZipNoRedRed(z, IsRed(t))
  {
    match z
    case Top =>
    case In(left, n, c, sib, up) =>
      NoRedRedPlug(up, Join(left, t, n, c, sib));
  }

  lemma {:induction false} RootColorPlug(z: Zip, t: Tree)
    requires z.In?
    ensures Plug(z, t).T? && (IsRed(Plug(z, t)) <==> !TopBlack(z))
  {
    if z.up.In? {
      RootColorPlug(z.up, Join(z.left, t, z.n, z.c, z.sib));
    }
  }

  // ---------- the height bound ----------

  ghost function Height(t: Tree): nat {
    match t
    case E => 0
    case T(l, _, _, r) => 1 + if Height(l) < Height(r) then Height(r) else Height(l)
  }

  ghost function Pow2(k: nat): nat {
    if k == 0 then 1 else 2 * Pow2(k - 1)
  }

  lemma {:induction false} HeightWithinBlacks(t: Tree)
    requires Balanced(t) && NoRedRed(t)
    ensures Height(t) <= 2 * Blacks(t) + (if IsRed(t) then 1 else 0)
  {
    match t
    case E =>
    case T(l, _, c, r) =>
      HeightWithinBlacks(l);
      HeightWithinBlacks(r);
  }

  lemma {:induction false} BlacksFill(t: Tree)
    requires Balanced(t)
    ensures Pow2(Blacks(t)) <= |InOrder(t)| + 1
  {
    match t
    case E =>
    case T(l, _, c, r) =>
      BlacksFill(l);
      BlacksFill(r);
  }

  lemma {:induction false} Pow2Add(a: nat, b: nat)
    ensures Pow2(a + b) == Pow2(a) * Pow2(b)
  {
    if a > 0 {
      Pow2Add(a - 1, b);
    }
  }

  lemma {:induction false} Pow2Mono(a: nat, b: nat)
    requires a <= b
    ensures 1 <= Pow2(a) <= Pow2(b)
    decreases b
  {
    if b > 0 {
      Pow2Mono(if a < b then a else b - 1, b - 1);
    }
  }

  /** The height of a red-black tree of n nodes is at most 2 * lg(n + 1), in the form
      2^height <= (n + 1)^2. */
  lemma HeightBound(t: Tree)
    requires IsRedBlack(t)
    ensures var n := |InOrder(t)|; Pow2(Height(t)) <= (n + 1) * (n + 1)
  {
    var b, n := Blacks(t), |InOrder(t)|;
    HeightWithinBlacks(t);
    BlacksFill(t);
    Pow2Mono(Height(t), b + b);
    Pow2Add(b, b);
    MulMono(Pow2(b), n + 1);
  }

  lemma MulMono(a: nat, b: nat)
    requires a <= b
    ensures a * a <= b * b
  {
    assert a * a <= a * b <= b * b;
  }
}
