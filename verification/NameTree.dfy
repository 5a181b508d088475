/** The directory tree, apart from how it is stored: its entries and its links. */
module NameTree {
  import opened Layout
  import opened Codec

  const ROOT: nat := 1
  const FT_FILE: u8 := 1
  const FT_DIR: u8 := 2
  const SLASH: Byte := 0x2F
  const NUL: Byte := 0
  const DOT: seq<Byte> := [0x2E]
  const DOTDOT: seq<Byte> := [0x2E, 0x2E]

  datatype Node = File(links: nat) | Dir(links: nat, slots: seq<Entry>)

  /** An entry's place: a directory and a slot in it. */
  datatype Spot = Spot(dir: nat, slot: nat)

  predicate IsSpot(t: map<nat, Node>, s: Spot) {
    s.dir in t && t[s.dir].Dir? && s.slot < |t[s.dir].slots|
  }

  function EntryAt(t: map<nat, Node>, s: Spot): Entry
    requires IsSpot(t, s)
  {
    t[s.dir].slots[s.slot]
  }

  /** The spots, "." and ".." included, that hold inode number x. */
  ghost function Refs(t: map<nat, Node>, x: nat): set<Spot> {
    set d, i | d in t && t[d].Dir? && 0 <= i < |t[d].slots| && t[d].slots[i].inode == x :: Spot(d, i)
  }

  /** An entry past "." and ".." that names x. */
  predicate Names(t: map<nat, Node>, s: Spot, x: nat) {
    IsSpot(t, s) && s.slot >= 2 && EntryAt(t, s).inode == x && x != 0
  }

  predicate GoodName(name: seq<Byte>) {
    && 1 <= |name| <= MAX_NAME_LEN && SLASH !in name && NUL !in name
    && name != DOT && name != DOTDOT
  }

  predicate IsDot(e: Entry, name: seq<Byte>, id: nat) {
    e.len == |name| && |name| <= MAX_NAME_LEN && e.field[..|name|] == name && e.kind == FT_DIR && e.inode == id
  }

  /** An entry past the first two: free and zero, or well named and of the inode's kind. */
  predicate EntryOk(t: map<nat, Node>, e: Entry) {
    if e.inode == 0 then e == ZERO_ENTRY
    else
      && 1 <= e.len <= MAX_NAME_LEN && GoodName(e.Name())
      && e.inode in t && e.kind == (if t[e.inode].Dir? then FT_DIR else FT_FILE)
  }

  /** The rules of one directory whose parent is the given one. */
  predicate DirRule(t: map<nat, Node>, d: nat, parent: nat)
    requires d in t && t[d].Dir?
  {
    var slots := t[d].slots;
    && |slots| >= 2 && IsDot(slots[0], DOT, d) && IsDot(slots[1], DOTDOT, parent)
    && (forall i :: 2 <= i < |slots| ==> EntryOk(t, slots[i]))
    && (forall i, k :: 2 <= i < k < |slots| && slots[i].inode != 0 && slots[k].inode != 0 ==>
          slots[i].Name() != slots[k].Name())
  }

  /** x is named by an entry of the directory d. */
  ghost predicate Child(t: map<nat, Node>, d: nat, x: nat) {
    exists i :: Names(t, Spot(d, i), x)
  }

  /** A chain of n entries, at most, leads from the root to x. */
  ghost predicate ReachIn(t: map<nat, Node>, x: nat, n: nat)
    decreases n
  {
    x == ROOT || (n > 0 && exists d :: Child(t, d, x) && ReachIn(t, d, n - 1))
  }

  ghost predicate Reachable(t: map<nat, Node>, x: nat) {
    exists n: nat :: ReachIn(t, x, n)
  }

  ghost predicate DirsOk(t: map<nat, Node>) {
    && ROOT in t && t[ROOT].Dir? && DirRule(t, ROOT, ROOT)
    && forall d, x :: Child(t, d, x) && x in t && t[x].Dir? && x != ROOT ==> DirRule(t, x, d)
  }

  /** No two entries name one inode, and none names the root. */
  ghost predicate NamedOnce(t: map<nat, Node>) {
    && (forall s, s', x :: Names(t, s, x) && Names(t, s', x) ==> s == s')
    && (forall s :: !Names(t, s, ROOT))
  }

  ghost predicate LinksOk(t: map<nat, Node>) {
    forall x :: x in t ==> t[x].links == |Refs(t, x)|
  }

  ghost predicate TreeOk(t: map<nat, Node>) {
    && DirsOk(t) && NamedOnce(t) && LinksOk(t)
    && (forall x :: x in t ==> Reachable(t, x))
  }
}
