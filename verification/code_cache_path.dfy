/**
 * Which directory the code cache may use: the checks made on its path from the
 * leaf up to the root, and what they guarantee about who can change it.
 */
module CodeCachePath {
  import opened LittleEndian

  datatype Kind = Directory | Symlink | OtherKind

  datatype Info = Info(kind: Kind, mode: nat, uid: nat)

  /** The node's own user, or unknown when the probe failed. */
  datatype User = Known(uid: nat) | Unknown

  datatype Answer = Present(info: Info) | Missing

  /** An absolute path by its components, the root being none. */
  type Path = seq<bytes>

  /** `read_link_info` of every path */
  type Disk = Path -> Answer

  datatype Verdict =
    | Usable
    | NotAbsolute
    | DotComponent
    | CannotStat(dir: Path)
    | BadLeaf(dir: Path)
    | BadAncestor(dir: Path)

  /** `Mode band 8#022 =:= 0` */
  predicate Tight(mode: nat) {
    mode / 2 % 2 == 0 && mode / 16 % 2 == 0
  }

  /** `leaf_ok` */
  predicate LeafOk(info: Info, me: User) {
    info.kind.Directory? && Tight(info.mode) && me == Known(info.uid)
  }

  /** `ancestor_ok` */
  predicate AncestorOk(info: Info, me: User) {
    info.kind.Directory? && Tight(info.mode) && (me == Known(info.uid) || info.uid == 0)
  }

  /** `filename:dirname`: the root answers itself. */
  function Dirname(dir: Path): Path {
    if dir == [] then [] else dir[..|dir| - 1]
  }

  /** `check_ancestors` */
  function CheckAncestors(disk: Disk, me: User, dir: Path): Verdict
    decreases |dir|
  {
    match disk(dir)
    case Missing => CannotStat(dir)
    case Present(info) =>
      if !AncestorOk(info, me) then BadAncestor(dir)
      else if Dirname(dir) == dir then Usable
      else CheckAncestors(disk, me, Dirname(dir))
  }

  /** A component that is one or two dots. */
  predicate Dots(c: bytes) { c == [46] || c == [46, 46] }

  /** `check_unix`: the spelling, then the leaf, then everything above. */
  function Check(disk: Disk, me: User, absolute: bool, dir: Path): Verdict {
    if !absolute then NotAbsolute
    else if exists c :: c in dir && Dots(c) then DotComponent
    else match disk(dir)
      case Missing => CannotStat(dir)
      case Present(info) => if !LeafOk(info, me) then BadLeaf(dir) else CheckAncestors(disk, me, Dirname(dir))
  }

  // ----- what the checks are for -----

  /**
   * Whether u can create, rename or remove what is in the directory: root can,
   * its owner can (by changing the mode if need be), and anybody else by the
   * write bit of the class u falls in.
   */
  predicate CanChange(info: Info, u: nat, inGroup: bool) {
    u == 0 || u == info.uid || (if inGroup then info.mode / 16 % 2 == 1 else info.mode / 2 % 2 == 1)
  }

  /** A real directory whose contents nobody but root and this node's user can change. */
  ghost predicate Guarded(disk: Disk, me: User, p: Path) {
    && disk(p).Present? && disk(p).info.kind.Directory?
    && forall u: nat, inGroup: bool :: CanChange(disk(p).info, u, inGroup) ==> u == 0 || me == Known(u)
  }

  /** The rule on an ancestor is exactly that. */
  lemma AncestorOkMeans(disk: Disk, me: User, p: Path)
    requires disk(p).Present?
    ensures AncestorOk(disk(p).info, me) <==> Guarded(disk, me, p)
  {
    var info := disk(p).info;
    if Guarded(disk, me, p) {
      assert CanChange(info, info.uid, false);
      var stranger := 1 + if me.Known? then me.uid else 0;
      assert !CanChange(info, stranger, true);
      assert !CanChange(info, stranger, false);
    }
  }

  /** Going up from dir finds exactly whether every directory from there to the root is guarded. */
  lemma {:induction false} AncestorsMeans(disk: Disk, me: User, dir: Path)
    ensures CheckAncestors(disk, me, dir) == Usable <==> forall n: nat :: n <= |dir| ==> Guarded(disk, me, dir[..n])
    decreases |dir|
  {
    assert dir[..|dir|] == dir;
    if disk(dir).Present? { AncestorOkMeans(disk, me, dir); }
    if dir != [] {
      var up := Dirname(dir);
      AncestorsMeans(disk, me, up);
      forall n: nat | n <= |up| ensures dir[..n] == up[..n] {}
    }
  }

  /**
   * The directory is usable exactly when the path is absolute without a dot
   * component, the node's own user owns the leaf, and every directory on the
   * path, the leaf and the root among them, is guarded.
   */
  lemma CheckMeans(disk: Disk, me: User, absolute: bool, dir: Path)
    ensures Check(disk, me, absolute, dir) == Usable <==>
      && absolute && (forall c :: c in dir ==> !Dots(c))
      && disk(dir).Present? && me == Known(disk(dir).info.uid)
      && forall n: nat :: n <= |dir| ==> Guarded(disk, me, dir[..n])
  {
    assert dir[..|dir|] == dir;
    if disk(dir).Present? { AncestorOkMeans(disk, me, dir); }
    AncestorsMeans(disk, me, Dirname(dir));
    if dir != [] {
      forall n: nat | n < |dir| ensures dir[..n] == Dirname(dir)[..n] {}
    }
  }

  /** A refusal names the deepest directory that fails: everything below it on the path is guarded. */
  lemma {:induction false} RefusalIsDeepest(disk: Disk, me: User, dir: Path, k: nat)
    requires var v := CheckAncestors(disk, me, dir);
      (v.BadAncestor? || v.CannotStat?) && |v.dir| < k <= |dir|
    ensures CheckAncestors(disk, me, dir).dir <= dir && !Guarded(disk, me, CheckAncestors(disk, me, dir).dir)
    ensures Guarded(disk, me, dir[..k])
    decreases |dir|
  {
    AncestorOkMeans(disk, me, dir);
    var up := Dirname(dir);
    var v := CheckAncestors(disk, me, up);
    if k == |dir| {
      assert dir[..k] == dir;
      FailureIsReal(disk, me, up);
    } else {
      RefusalIsDeepest(disk, me, up, k);
      assert dir[..k] == up[..k];
    }
    assert v.dir <= up <= dir;
  }

  lemma {:induction false} FailureIsReal(disk: Disk, me: User, dir: Path)
    requires var v := CheckAncestors(disk, me, dir); v.BadAncestor? || v.CannotStat?
    ensures CheckAncestors(disk, me, dir).dir <= dir && !Guarded(disk, me, CheckAncestors(disk, me, dir).dir)
    decreases |dir|
  {
    if disk(dir).Present? {
      AncestorOkMeans(disk, me, dir);
      if AncestorOk(disk(dir).info, me) {
        FailureIsReal(disk, me, Dirname(dir));
        assert Dirname(dir) <= dir;
      }
    }
  }
}
