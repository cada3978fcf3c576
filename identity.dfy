/** The (device, inode) identity of a directory (src/filesystem/dev_ino.rs),
    the key of the cycle guard. */
module Identity {
  import opened Base

  datatype DevIno = DevIno(stDev: u64, stIno: u64)

  /** `DevIno::new`: both numbers are kept as given. */
  function NewDevIno(stDev: u64, stIno: u64): (d: DevIno)
    ensures d.stDev == stDev && d.stIno == stIno
  {
    DevIno(stDev, stIno)
  }

  /** The hand-written `PartialEq`: both fields compared. */
  predicate Eq(a: DevIno, b: DevIno) {
    a.stDev == b.stDev && a.stIno == b.stIno
  }

  /** What `Hash::hash` feeds the hasher: `st_dev`, then `st_ino`. */
  function HashWords(d: DevIno): (w: seq<u64>)
    ensures |w| == 2
  {
    [d.stDev, d.stIno]
  }

  /** The source's equality coincides with value equality, so a `set<DevIno>`
      here behaves as the source's `HashSet<DevIno>`. */
  lemma EqIsValueEquality(a: DevIno, b: DevIno)
    ensures Eq(a, b) <==> a == b
  {
  }

  /** The declared `Eq` is an equivalence relation. */
  lemma EqIsEquivalence(a: DevIno, b: DevIno, c: DevIno)
    ensures Eq(a, a)
    ensures Eq(a, b) ==> Eq(b, a)
    ensures Eq(a, b) && Eq(b, c) ==> Eq(a, c)
  {
  }

  /** Hash and equality agree: equal identities feed the hasher the same words,
      and the words determine the identity. */
  lemma HashAgreesWithEq(a: DevIno, b: DevIno)
    ensures Eq(a, b) <==> HashWords(a) == HashWords(b)
  {
    if HashWords(a) == HashWords(b) {
      assert HashWords(a)[0] == HashWords(b)[0] && HashWords(a)[1] == HashWords(b)[1];
    }
  }
}
