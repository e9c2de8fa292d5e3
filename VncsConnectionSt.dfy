/** The inline members of a client connection: the copy-pass list and the
    changed region it feeds, and the access rights with their permission
    re-check. */
module VncsConnectionSt {
  import opened Geometry
  import opened CompareTracker

  /** One access right. The rights are a bit mask in the code; here they are
      a set of rights, and the bit values (in SConnection.h, which is not
      part of this model) play no part. */
  datatype Right = View | KeyEvents | PtrEvents | CutText | SetDesktopSize | OtherRight(bit: nat)

  /** The pixels of a rectangle. */
  function Pixels(r: Rect): set<(int, int)>
  {
    set x: int, y: int | r.tlx <= x < r.brx && r.tly <= y < r.bry :: (x, y)
  }

  /** The union of the rectangles of a copy-pass list, as a set of pixels. */
  function Covered(cs: seq<CopyPass>): set<(int, int)>
  {
    if |cs| == 0 then {} else Covered(cs[..|cs| - 1]) + Pixels(cs[|cs| - 1].rect)
  }

  /** A pixel is covered exactly when some rectangle of the list holds it. */
  lemma {:induction false} CoveredIff(cs: seq<CopyPass>, x: int, y: int)
    ensures (x, y) in Covered(cs) <==> exists i :: 0 <= i < |cs| && cs[i].rect.Contains(x, y)
  {
    if |cs| > 0 {
      var pre := cs[..|cs| - 1];
      CoveredIff(pre, x, y);
      if (x, y) in Covered(cs) && (x, y) !in Covered(pre) {
        assert cs[|cs| - 1].rect.Contains(x, y);
      }
      if i :| 0 <= i < |cs| && cs[i].rect.Contains(x, y) {
        if i < |cs| - 1 {
          assert pre[i] == cs[i];
        } else {
          assert (x, y) in Pixels(cs[i].rect);
        }
      }
    }
  }

  /** canChangeKasmSettings(): both the pointer and the key rights are held. */
  predicate CanChangeKasmSettings(rights: set<Right>)
    ensures CanChangeKasmSettings(rights) <==> {PtrEvents, KeyEvents} <= rights
  {
    PtrEvents in rights && KeyEvents in rights
  }

  class Connection {
    /** The copy-pass list of the next update. */
    var copypassed: seq<CopyPass>
    /** The changed region of the update tracker, as a set of pixels. */
    var changed: set<(int, int)>
    var accessRights: set<Right>
    var needsPermCheck: bool

    /** A connection with the given rights, nothing pending. */
    constructor (rights: set<Right>)
      ensures copypassed == [] && changed == {} && accessRights == rights && !needsPermCheck
    {
      copypassed := [];
      changed := {};
      accessRights := rights;
      needsPermCheck := false;
    }

    /** recheckPerms(): the permissions are looked up again before the
        next use. */
    method RecheckPerms()
      modifies this
      ensures needsPermCheck
      ensures copypassed == old(copypassed) && changed == old(changed) && accessRights == old(accessRights)
    {
      needsPermCheck := true;
    }

    /** add_changed(region): the region joins the changed region. */
    method AddChanged(region: set<(int, int)>)
      modifies this
      ensures changed == old(changed) + region
      ensures copypassed == old(copypassed) && accessRights == old(accessRights)
      ensures needsPermCheck == old(needsPermCheck)
    {
      changed := changed + region;
    }

    /** add_copypassed(in): an empty list takes the new one; a non-empty
        one is kept, and the new rectangles become changed pixels instead,
        so that copies never follow changes of a later frame. */
    method AddCopypassed(incoming: seq<CopyPass>)
      modifies this
      ensures old(copypassed) == [] ==> copypassed == incoming && changed == old(changed)
      ensures old(copypassed) != [] ==> copypassed == old(copypassed) && changed == old(changed) + Covered(incoming)
      ensures HasCopypassed() <==> old(HasCopypassed()) || incoming != []
      ensures accessRights == old(accessRights) && needsPermCheck == old(needsPermCheck)
    {
      if |copypassed| != 0 {
        var everything: set<(int, int)> := {};
        var i := 0;
        while i < |incoming|
          invariant 0 <= i <= |incoming|
          invariant everything == Covered(incoming[..i])
        {
          assert incoming[..i + 1][..i] == incoming[..i];
          everything := everything + Pixels(incoming[i].rect);
          i := i + 1;
        }
        assert incoming[..i] == incoming;
        AddChanged(everything);
        return;
      }
      copypassed := incoming;
    }

    /** has_copypassed() */
    predicate HasCopypassed()
      reads this
      ensures HasCopypassed() <==> copypassed != []
    {
      |copypassed| != 0
    }

    /** setAccessRights(ar): the rights are stored, less the writer rights
        when the permission lookup fails or denies writing; the re-check is
        done. The lookup's answer (found, write) and WRITER_PERMS (writer)
        are parameters. */
    method SetAccessRights(ar: set<Right>, found: bool, write: bool, writer: set<Right>)
      modifies this
      ensures accessRights == Granted(ar, found, write, writer)
      ensures !needsPermCheck
      ensures copypassed == old(copypassed) && changed == old(changed)
    {
      accessRights := ar;
      if !found || !write {
        accessRights := accessRights - writer;
      }
      needsPermCheck := false;
    }
  }

  /** What setAccessRights leaves: the given rights, less the writer rights
      when writing is not allowed. */
  function Granted(ar: set<Right>, found: bool, write: bool, writer: set<Right>): (r: set<Right>)
    ensures r <= ar
    ensures !found || !write ==> r !! writer
    ensures found && write ==> r == ar
  {
    if !found || !write then ar - writer else ar
  }

  /** A connection not allowed to write loses Kasm settings changes when
      the writer rights include pointer or key events; one allowed to
      write keeps whatever it was given. */
  lemma DeniedCannotChangeSettings(ar: set<Right>, found: bool, write: bool, writer: set<Right>)
    requires PtrEvents in writer || KeyEvents in writer
    ensures !found || !write ==> !CanChangeKasmSettings(Granted(ar, found, write, writer))
    ensures found && write ==> (CanChangeKasmSettings(Granted(ar, found, write, writer)) <==> CanChangeKasmSettings(ar))
  {
  }
}
