/**
 * The folder tree builder of src/logic/folder.ts: six fixed root folders,
 * and `resolveFolder`, which files one flat IMAP LIST entry into the tree at
 * a time. Folders are objects whose fields are updated in place; the
 * manager keeps, as ghost state, every folder in creation order (`nodes`),
 * so that the effect of one call can be stated folder by folder.
 */
module Folder {
  import opened Js
  import opened Imap

  /** The role of a root folder (RootMailFolder.role). */
  datatype Role = Inbox | Drafts | Sent | Archive | Junk | Trash

  function RoleName(r: Role): string
  {
    match r
    case Inbox => "Inbox"
    case Drafts => "Drafts"
    case Sent => "Sent"
    case Archive => "Archive"
    case Junk => "Junk"
    case Trash => "Trash"
  }

  /** The keys of ROOT_SPECIAL in declaration order, the order `Object.entries` visits them. */
  const SpecialRoles: seq<Role> := [Drafts, Sent, Archive, Junk, Trash]

  /** The attribute that marks a special-use folder: a backslash and the role's key (RFC 6154 section 2). */
  function Marker(r: Role): string
  {
    "\\" + RoleName(r)
  }

  /** The position of each root in ROOT. */
  function RootIndex(r: Role): nat
  {
    match r
    case Inbox => 0
    case Drafts => 1
    case Sent => 2
    case Archive => 3
    case Junk => 4
    case Trash => 5
  }

  const RootCount: nat := 6

  function FirstSpecialFrom(attrs: seq<string>, k: nat): (j: nat)
    requires k <= |SpecialRoles|
    ensures k <= j <= |SpecialRoles|
    ensures j < |SpecialRoles| ==> Marker(SpecialRoles[j]) in attrs
    ensures forall m :: k <= m < j ==> Marker(SpecialRoles[m]) !in attrs
    decreases |SpecialRoles| - k
  {
    if k == |SpecialRoles| || Marker(SpecialRoles[k]) in attrs then k
    else FirstSpecialFrom(attrs, k + 1)
  }

  /**
   * The position in ROOT_SPECIAL order of the first role whose marker the
   * attributes carry, or |SpecialRoles| when they carry none.
   */
  function FirstSpecial(attrs: seq<string>): (j: nat)
    ensures j <= |SpecialRoles|
    ensures j < |SpecialRoles| ==> Marker(SpecialRoles[j]) in attrs
    ensures forall m :: 0 <= m < j ==> Marker(SpecialRoles[m]) !in attrs
  {
    FirstSpecialFrom(attrs, 0)
  }

  /** An entry that resolveFolder files as a root: INBOX, or one carrying a special-use marker. */
  predicate IsRootEntry(e: ImapFolder)
  {
    e.name == "INBOX" || FirstSpecial(e.attributes) < |SpecialRoles|
  }

  /** The names that filing the entries `es` registers as root names. */
  function RootNames(es: seq<ImapFolder>): set<string>
  {
    set e | e in es && IsRootEntry(e) :: e.name
  }

  /** Filing two runs of entries one after the other registers the names of both. */
  lemma RootNamesAppend(s: seq<ImapFolder>, t: seq<ImapFolder>)
    ensures RootNames(s + t) == RootNames(s) + RootNames(t)
    ensures |t| == 1 ==> RootNames(t) == if IsRootEntry(t[0]) then {t[0].name} else {}
  {
    if |t| == 1 {
      assert forall e :: e in t <==> e == t[0];
    }
  }

  /** A snapshot of the fields of one folder. */
  datatype FolderState = FolderState(name: string, path: string, attr: set<string>, children: seq<MailFolder>)

  /** MailFolder, and RootMailFolder when `role` is present. */
  class MailFolder {
    var name: string          // local name
    var path: string          // global path
    var attr: set<string>
    var children: seq<MailFolder>
    const role: Option<Role>

    constructor (name: string, path: string, attr: set<string>)
      ensures this.name == name && this.path == path && this.attr == attr
      ensures children == [] && role == None
    {
      this.name := name;
      this.path := path;
      this.attr := attr;
      this.children := [];
      this.role := None;
    }

    constructor Root(name: string, role: Role, path: string, attr: set<string>)
      ensures this.name == name && this.path == path && this.attr == attr
      ensures children == [] && this.role == Some(role)
    {
      this.name := name;
      this.path := path;
      this.attr := attr;
      this.children := [];
      this.role := Some(role);
    }

    ghost function State(): FolderState
      reads this
    {
      FolderState(name, path, attr, children)
    }

    /** Add every attribute of `a`; attributes already present stay as they are. */
    method AddAttrs(a: seq<string>)
      modifies this`attr
      ensures attr == old(attr) + ToSet(a)
    {
      for k := 0 to |a|
        invariant attr == old(attr) + ToSet(a[..k])
      {
        ToSetSnoc(a, k);
        attr := attr + {a[k]};
      }
      assert a[..|a|] == a;
    }

    method AddChild(f: MailFolder)
      modifies this`children
      ensures children == old(children) + [f]
    {
      children := children + [f];
    }
  }

  /** The first child whose local name is `s`, as `Array.prototype.find` returns it; -1 for none. */
  function FirstNamed(cs: seq<MailFolder>, s: string): (k: int)
    reads cs
    ensures -1 <= k < |cs|
    ensures k >= 0 ==> cs[k].name == s
    ensures forall j :: 0 <= j < |cs| && (k == -1 || j < k) ==> cs[j].name != s
    decreases |cs|
  {
    if cs == [] then -1
    else if cs[0].name == s then 0
    else
      var r := FirstNamed(cs[1..], s);
      if r == -1 then -1 else r + 1
  }

  /** The local names of a chain of folders, each followed by the delimiter. */
  ghost function JoinTrail(t: seq<MailFolder>, d: string): string
    reads t
  {
    if t == [] then "" else t[0].name + d + JoinTrail(t[1..], d)
  }

  /**
   * Where the walk of `resolveFolder` ends: the folder that receives the new
   * child, the position where the child's local name starts, and the
   * folders descended into on the way, outermost first.
   */
  datatype Descent = Descent(parent: MailFolder, start: nat, trail: seq<MailFolder>)

  /** The six folders of ROOT, each with its role, local name, path and attributes. */
  method NewRoots() returns (inbox: MailFolder, drafts: MailFolder, sent: MailFolder,
                             archive: MailFolder, junk: MailFolder, trash: MailFolder)
    ensures fresh(inbox) && fresh(drafts) && fresh(sent) && fresh(archive) && fresh(junk) && fresh(trash)
    ensures Distinct([inbox, drafts, sent, archive, junk, trash])
    ensures forall f :: f in [inbox, drafts, sent, archive, junk, trash] ==> f.children == []
    ensures inbox.role == Some(Inbox) && drafts.role == Some(Drafts) && sent.role == Some(Sent)
    ensures archive.role == Some(Archive) && junk.role == Some(Junk) && trash.role == Some(Trash)
    ensures inbox.State() == FolderState("Inbox", "INBOX", {}, [])
    ensures drafts.State() == FolderState("Drafts", "~", {"\\Drafts"}, [])
    ensures sent.State() == FolderState("Sent", "~", {"\\Sent"}, [])
    ensures archive.State() == FolderState("Archive", "~", {"\\Archive"}, [])
    ensures junk.State() == FolderState("Junk", "~", {"\\Junk"}, [])
    ensures trash.State() == FolderState("Trash", "~", {"\\Trash"}, [])
  {
    // `new Set("")` iterates the characters of the empty string: no attributes
    inbox := new MailFolder.Root("Inbox", Inbox, "INBOX", CharSet(""));
    drafts := new MailFolder.Root("Drafts", Drafts, "~", ToSet(["\\Drafts"]));
    sent := new MailFolder.Root("Sent", Sent, "~", ToSet(["\\Sent"]));
    archive := new MailFolder.Root("Archive", Archive, "~", ToSet(["\\Archive"]));
    junk := new MailFolder.Root("Junk", Junk, "~", ToSet(["\\Junk"]));
    trash := new MailFolder.Root("Trash", Trash, "~", ToSet(["\\Trash"]));
  }

  class FolderManager {
    const inbox: MailFolder
    const drafts: MailFolder
    const sent: MailFolder
    const archive: MailFolder
    const junk: MailFolder
    const trash: MailFolder
    const root: seq<MailFolder>
    /** ROOT_PATHS: the server names registered for the roots. */
    var rootPaths: map<string, MailFolder>

    /** Every folder of the tree, roots first, the others in the order they were attached. */
    ghost var nodes: seq<MailFolder>
    /** The folders of the tree, as a set: what the walk may read. */
    ghost var folders: set<MailFolder>
    ghost var Repr: set<object>

    /** The ROOT_SPECIAL (and INBOX) field holding the root of each role. */
    function RootOf(r: Role): MailFolder
    {
      match r
      case Inbox => inbox
      case Drafts => drafts
      case Sent => sent
      case Archive => archive
      case Junk => junk
      case Trash => trash
    }

    /** The roots come first in `nodes`, and every folder of `nodes` belongs to the manager. */
    ghost predicate Indexed()
      reads this
    {
      && this in Repr && {inbox, drafts, sent, archive, junk, trash} <= Repr
      && root == [inbox, drafts, sent, archive, junk, trash]
      && inbox.role == Some(Inbox) && drafts.role == Some(Drafts) && sent.role == Some(Sent)
      && archive.role == Some(Archive) && junk.role == Some(Junk) && trash.role == Some(Trash)
      && |nodes| >= RootCount && nodes[..RootCount] == root
      && (forall i :: 0 <= i < |nodes| ==> nodes[i] in folders)
      && (forall n :: n in folders ==> n in Repr)
      && (forall p :: p in rootPaths ==> rootPaths[p] in root)
    }

    /** The children of every folder are folders of the manager. */
    ghost predicate Closed()
      reads this, folders
    {
      forall n, k :: n in folders && 0 <= k < |n.children| ==> n.children[k] in folders
    }

    ghost predicate Valid()
      reads this, Repr
    {
      Indexed() && Closed()
    }

    /** `p`, then `t[0]`, `t[1]`, ... each a child of the one before. */
    ghost predicate Chain(p: MailFolder, t: seq<MailFolder>)
      reads p, t
    {
      t == [] || (t[0] in p.children && Chain(t[0], t[1..]))
    }

    /**
     * The greedy descent of resolveFolder from folder `p`, with the current
     * slice starting at `pIdx` and the scan at position `i`: at each
     * delimiter, descend into the first child named like the slice and start
     * a new slice after the delimiter; otherwise widen the slice.
     */
    ghost function Walk(name: string, d: string, p: MailFolder, pIdx: nat, i: nat): (w: Descent)
      requires Closed() && p in folders && pIdx <= i
      reads this, folders
      ensures w.parent in folders
      ensures pIdx <= w.start && (i <= |name| ==> w.start <= |name|)
      decreases |name| - i
    {
      if i >= |name| then Descent(p, pIdx, [])
      else if !CharIs(name, i, d) then Walk(name, d, p, pIdx, i + 1)
      else
        var k := FirstNamed(p.children, name[pIdx..i]);
        if k == -1 then Walk(name, d, p, pIdx, i + 1)
        else
          var c := p.children[k];
          var w := Walk(name, d, c, i + 1, i + 1);
          Descent(w.parent, w.start, [c] + w.trail)
    }

    /**
     * The walk goes down the tree: each folder it descends into is a child
     * of the one before, and the folder that receives the new child is the
     * last of them (the start folder when it descends into none).
     */
    lemma {:induction false} WalkChain(name: string, d: string, p: MailFolder, pIdx: nat, i: nat)
      requires Closed() && p in folders && pIdx <= i
      ensures var w := Walk(name, d, p, pIdx, i);
        && (forall k :: 0 <= k < |w.trail| ==> w.trail[k] in folders)
        && w.parent == (if w.trail == [] then p else w.trail[|w.trail| - 1])
        && Chain(p, w.trail)
      decreases |name| - i, 1
    {
      if i < |name| {
        if !CharIs(name, i, d) || FirstNamed(p.children, name[pIdx..i]) == -1 {
          WalkChain(name, d, p, pIdx, i + 1);
          assert Walk(name, d, p, pIdx, i) == Walk(name, d, p, pIdx, i + 1);
        } else {
          WalkChainDescend(name, d, p, pIdx, i);
        }
      }
    }

    /** WalkChain when the walk descends at position `i`. */
    lemma {:induction false} WalkChainDescend(name: string, d: string, p: MailFolder, pIdx: nat, i: nat)
      requires Closed() && p in folders && pIdx <= i < |name|
      requires CharIs(name, i, d) && FirstNamed(p.children, name[pIdx..i]) != -1
      ensures var w := Walk(name, d, p, pIdx, i);
        && (forall k :: 0 <= k < |w.trail| ==> w.trail[k] in folders)
        && w.parent == (if w.trail == [] then p else w.trail[|w.trail| - 1])
        && Chain(p, w.trail)
      decreases |name| - i, 0
    {
      var c := p.children[FirstNamed(p.children, name[pIdx..i])];
      WalkChain(name, d, c, i + 1, i + 1);
      var w := Walk(name, d, c, i + 1, i + 1);
      var t := [c] + w.trail;
      assert Walk(name, d, p, pIdx, i) == Descent(w.parent, w.start, t);
      assert t[1..] == w.trail;
      assert t[|t| - 1] == if w.trail == [] then c else w.trail[|w.trail| - 1];
    }

    /**
     * Where the walk is after the scan passes position `i`: in the first
     * child named like the current slice when the delimiter stands at `i`,
     * otherwise where it was.
     */
    ghost function Step(name: string, d: string, p: MailFolder, pIdx: nat, i: nat): (r: (MailFolder, nat))
      requires Closed() && p in folders && pIdx <= i < |name|
      reads this, folders
      ensures r.0 in folders && r.1 <= i + 1
      ensures Walk(name, d, p, pIdx, i).parent == Walk(name, d, r.0, r.1, i + 1).parent
      ensures Walk(name, d, p, pIdx, i).start == Walk(name, d, r.0, r.1, i + 1).start
    {
      var k := if CharIs(name, i, d) then FirstNamed(p.children, name[pIdx..i]) else -1;
      if k == -1 then (p, pIdx) else (p.children[k], i + 1)
    }

    /** The entry is not a root entry, contains the delimiter, and its first segment is a registered root name. */
    ghost predicate Nested(e: ImapFolder)
      reads this
    {
      && e.name != "INBOX"
      && FirstSpecial(e.attributes) == |SpecialRoles|
      && IndexOf(e.name, e.delimiter) >= 0
      && e.name[..IndexOf(e.name, e.delimiter)] in rootPaths
    }

    /** The walk resolveFolder performs for a nested entry. */
    ghost function Descend(e: ImapFolder): Descent
      requires Valid() && Nested(e)
      reads this, Repr
    {
      var n := IndexOf(e.name, e.delimiter);
      Walk(e.name, e.delimiter, rootPaths[e.name[..n]], n + 1, n + 1)
    }

    /**
     * Every folder the walk descends into contributes its local name and one
     * delimiter, and what is left is the new folder's local name.
     */
    lemma {:induction false} WalkJoin(name: string, d: string, p: MailFolder, pIdx: nat, i: nat)
      requires Closed() && p in folders && pIdx <= i <= |name| && |d| == 1
      ensures var w := Walk(name, d, p, pIdx, i);
        name[pIdx..] == JoinTrail(w.trail, d) + name[w.start..]
      decreases |name| - i, 1
    {
      if i < |name| {
        if !CharIs(name, i, d) || FirstNamed(p.children, name[pIdx..i]) == -1 {
          WalkJoin(name, d, p, pIdx, i + 1);
          assert Walk(name, d, p, pIdx, i) == Walk(name, d, p, pIdx, i + 1);
        } else {
          WalkJoinDescend(name, d, p, pIdx, i);
        }
      }
    }

    /** WalkJoin when the walk descends at position `i`. */
    lemma {:induction false} WalkJoinDescend(name: string, d: string, p: MailFolder, pIdx: nat, i: nat)
      requires Closed() && p in folders && pIdx <= i < |name| && |d| == 1
      requires CharIs(name, i, d) && FirstNamed(p.children, name[pIdx..i]) != -1
      ensures var w := Walk(name, d, p, pIdx, i);
        name[pIdx..] == JoinTrail(w.trail, d) + name[w.start..]
      decreases |name| - i, 0
    {
      var c := p.children[FirstNamed(p.children, name[pIdx..i])];
      WalkJoin(name, d, c, i + 1, i + 1);
      var w := Walk(name, d, c, i + 1, i + 1);
      var t := [c] + w.trail;
      assert Walk(name, d, p, pIdx, i) == Descent(w.parent, w.start, t);
      assert t[1..] == w.trail;
      assert JoinTrail(t, d) == name[pIdx..i] + d + JoinTrail(w.trail, d);
      SplitJoin(name, pIdx, i, d, JoinTrail(w.trail, d), name[w.start..]);
    }

    /**
     * The folder resolveFolder appends for a nested entry: its ancestors
     * below the root are a parent-to-child chain ending at the folder that
     * receives it, and the entry's name is the root's registered name, the
     * local names of those ancestors, and the new folder's local name, joined
     * by the delimiter.
     */
    lemma {:induction false} AppendedName(e: ImapFolder)
      requires Valid() && Nested(e) && |e.delimiter| == 1
      ensures var n := IndexOf(e.name, e.delimiter);
        var w := Descend(e);
        && Chain(rootPaths[e.name[..n]], w.trail)
        && w.parent == (if w.trail == [] then rootPaths[e.name[..n]] else w.trail[|w.trail| - 1])
        && e.name == e.name[..n] + e.delimiter + JoinTrail(w.trail, e.delimiter) + SliceFrom(e.name, w.start)
    {
      var n := IndexOf(e.name, e.delimiter);
      var r := rootPaths[e.name[..n]];
      assert r in folders;
      WalkChain(e.name, e.delimiter, r, n + 1, n + 1);
      WalkJoin(e.name, e.delimiter, r, n + 1, n + 1);
      var w := Descend(e);
      CutAt(e.name, e.delimiter, n, JoinTrail(w.trail, e.delimiter), w.start);
    }

    constructor ()
      ensures Valid() && fresh(Repr)
      ensures nodes == root
      ensures inbox.State() == FolderState("Inbox", "INBOX", {}, [])
      ensures drafts.State() == FolderState("Drafts", "~", {"\\Drafts"}, [])
      ensures sent.State() == FolderState("Sent", "~", {"\\Sent"}, [])
      ensures archive.State() == FolderState("Archive", "~", {"\\Archive"}, [])
      ensures junk.State() == FolderState("Junk", "~", {"\\Junk"}, [])
      ensures trash.State() == FolderState("Trash", "~", {"\\Trash"}, [])
      ensures rootPaths == map[]
    {
      var inbox, drafts, sent, archive, junk, trash := NewRoots();
      this.inbox, this.drafts, this.sent := inbox, drafts, sent;
      this.archive, this.junk, this.trash := archive, junk, trash;
      root := [inbox, drafts, sent, archive, junk, trash];
      rootPaths := map[];
      nodes := [inbox, drafts, sent, archive, junk, trash];
      folders := {inbox, drafts, sent, archive, junk, trash};
      Repr := {this, inbox, drafts, sent, archive, junk, trash};
    }

    /** The folder whose state resolveFolder changes for entry `e`, if any. */
    ghost function Target(e: ImapFolder): Option<MailFolder>
      requires Valid()
      reads this, Repr
    {
      if e.name == "INBOX" then Some(inbox)
      else if FirstSpecial(e.attributes) < |SpecialRoles| then Some(RootOf(SpecialRoles[FirstSpecial(e.attributes)]))
      else if Nested(e) then Some(Descend(e).parent)
      else None
    }

    /**
     * What resolveFolder does to the tree for entry `e`. An entry named INBOX
     * is merged into the Inbox root; otherwise the first special-use marker
     * it carries renames and re-paths that root; otherwise it is attached as
     * one new folder below the folder the greedy walk reaches from its root,
     * unless it has no delimiter or its first segment is not a registered
     * root name, in which case nothing changes. No other folder changes, and
     * the folders created so far keep their places in `nodes`.
     */
    twostate predicate Filed(e: ImapFolder)
      requires old(Valid()) && Valid()
      reads this, Repr
    {
      && |nodes| >= |old(nodes)| && nodes[..|old(nodes)|] == old(nodes) && old(folders) <= folders
      && (forall n :: n in old(folders) && Some(n) != old(Target(e)) ==> n.State() == old(n.State()))
      && (e.name == "INBOX" ==>
        && rootPaths == old(rootPaths)[e.name := inbox]
        && nodes == old(nodes)
        && inbox.State() == old(inbox.State()).(attr := old(inbox.attr) + ToSet(e.attributes)))
      && (e.name != "INBOX" && FirstSpecial(e.attributes) < |SpecialRoles| ==>
        var v := RootOf(SpecialRoles[FirstSpecial(e.attributes)]);
        && rootPaths == old(rootPaths)[e.name := v]
        && nodes == old(nodes)
        && v.State() == FolderState(e.name, e.name, old(v.attr) + ToSet(e.attributes), old(v.children)))
      && (old(Target(e)) == None ==> rootPaths == old(rootPaths) && nodes == old(nodes))
      && (old(Nested(e)) ==>
        var w := old(Descend(e));
        && rootPaths == old(rootPaths)
        && |nodes| == |old(nodes)| + 1
        && nodes[|old(nodes)|].State() == FolderState(SliceFrom(e.name, w.start), e.name, ToSet(e.attributes), [])
        && w.parent.State() == old(w.parent.State()).(children := old(w.parent.children) + [nodes[|old(nodes)|]]))
    }

    /** resolveFolder: file one LIST entry into the tree. */
    method ResolveFolder(e: ImapFolder)
      requires Valid()
      modifies Repr
      ensures Valid() && fresh(Repr - old(Repr))
      ensures forall i :: |old(nodes)| <= i < |nodes| ==> fresh(nodes[i])
      ensures Filed(e)
    {
      if e.name == "INBOX" {
        MergeInbox(e);
        return;
      }
      var k := 0;
      while k < |SpecialRoles| && Marker(SpecialRoles[k]) !in e.attributes
        invariant 0 <= k <= |SpecialRoles|
        invariant forall m :: 0 <= m < k ==> Marker(SpecialRoles[m]) !in e.attributes
      {
        k := k + 1;
      }
      if k < |SpecialRoles| {
        Rename(k, e);
        return;
      }
      var n := IndexOf(e.name, e.delimiter);
      if n == -1 {
        return;  // no parent folder: nothing changes
      }
      var parent := e.name[..n];
      if parent !in rootPaths {
        return;  // parent is not a root folder: nothing changes
      }
      FileNested(e);
    }

    /**
     * Resolving the INBOX entry a second time: attribute union is
     * idempotent and INBOX is registered again for the same root, so the two
     * calls together have exactly the effect of one.
     */
    method ResolveInboxTwice(e: ImapFolder)
      requires Valid() && e.name == "INBOX"
      modifies Repr
      ensures Valid() && fresh(Repr - old(Repr))
      ensures Filed(e)
    {
      ResolveFolder(e);
      ResolveFolder(e);
    }

    /** Resolving a special-use entry a second time: as for INBOX, the two calls have the effect of one. */
    method ResolveSpecialTwice(e: ImapFolder)
      requires Valid() && e.name != "INBOX" && FirstSpecial(e.attributes) < |SpecialRoles|
      modifies Repr
      ensures Valid() && fresh(Repr - old(Repr))
      ensures Filed(e)
    {
      ResolveFolder(e);
      ResolveFolder(e);
    }

    /**
     * resolveFolder on the INBOX entry, seen from the roots: the Inbox gains
     * the attributes, INBOX is registered for it, and every other root keeps
     * its state.
     */
    method ResolveInbox(e: ImapFolder)
      requires Valid() && e.name == "INBOX"
      modifies Repr
      ensures Valid() && fresh(Repr - old(Repr)) && nodes == old(nodes)
      ensures inbox.State() == old(inbox.State()).(attr := old(inbox.attr) + ToSet(e.attributes))
      ensures rootPaths == old(rootPaths)["INBOX" := inbox]
      ensures forall f :: f in root && f != inbox ==> f.State() == old(f.State())
    {
      ResolveFolder(e);
      forall f | f in root && f != inbox
        ensures f.State() == old(f.State())
      {
        var i :| 0 <= i < RootCount && root[i] == f;
        assert nodes[..RootCount][i] == f;
      }
    }

    /**
     * resolveFolder on a special-use entry, seen from the roots: `v`, the
     * root of the first marker the entry carries, takes the entry's name as
     * local name and path and gains the attributes, the name is registered
     * for it, and every other root keeps its state.
     */
    method ResolveSpecial(e: ImapFolder) returns (v: MailFolder)
      requires Valid() && e.name != "INBOX" && FirstSpecial(e.attributes) < |SpecialRoles|
      modifies Repr
      ensures Valid() && fresh(Repr - old(Repr)) && nodes == old(nodes)
      ensures v == RootOf(SpecialRoles[FirstSpecial(e.attributes)]) && v.role == Some(SpecialRoles[FirstSpecial(e.attributes)]) && v in root
      ensures v.State() == FolderState(e.name, e.name, old(v.attr) + ToSet(e.attributes), old(v.children))
      ensures rootPaths == old(rootPaths)[e.name := v]
      ensures forall f :: f in root && f != v ==> f.State() == old(f.State())
    {
      v := RootOf(SpecialRoles[FirstSpecial(e.attributes)]);
      ResolveFolder(e);
      forall f | f in root && f != v
        ensures f.State() == old(f.State())
      {
        var i :| 0 <= i < RootCount && root[i] == f;
        assert nodes[..RootCount][i] == f;
      }
    }

    /**
     * Two special-use entries of different roles: each root takes its own
     * entry's name as local name and path and gains its attributes, both
     * names are registered, and the other roots keep their state. The
     * contract is symmetric in the two entries, so either order of the calls
     * ends with the same roots. Only when both entries carry the same name
     * does the order show: the later one keeps the name in ROOT_PATHS.
     */
    method ResolveTwoSpecial(e1: ImapFolder, e2: ImapFolder) returns (r1: MailFolder, r2: MailFolder)
      requires Valid() && e1.name != "INBOX" && e2.name != "INBOX"
      requires FirstSpecial(e1.attributes) < |SpecialRoles| && FirstSpecial(e2.attributes) < |SpecialRoles|
      requires FirstSpecial(e1.attributes) != FirstSpecial(e2.attributes)
      modifies Repr
      ensures r1 in root && r1.role == Some(SpecialRoles[FirstSpecial(e1.attributes)])
      ensures r2 in root && r2.role == Some(SpecialRoles[FirstSpecial(e2.attributes)])
      ensures r1.name == e1.name && r1.path == e1.name && r1.attr == old(r1.attr) + ToSet(e1.attributes)
      ensures r2.name == e2.name && r2.path == e2.name && r2.attr == old(r2.attr) + ToSet(e2.attributes)
      ensures r1.children == old(r1.children) && r2.children == old(r2.children) && nodes == old(nodes)
      ensures forall f :: f in root && f != r1 && f != r2 ==> f.State() == old(f.State())
      ensures e1.name != e2.name ==> rootPaths == old(rootPaths)[e1.name := r1][e2.name := r2]
      ensures e1.name == e2.name ==> rootPaths == old(rootPaths)[e2.name := r2]
    {
      r1 := ResolveSpecial(e1);
      r2 := ResolveSpecial(e2);
      assert r1 != r2;
    }

    /**
     * The INBOX entry, then a special-use entry: the Inbox keeps its name and
     * path and gains the INBOX attributes, the special-use root is renamed
     * and re-pathed, both names are registered, and the other roots keep
     * their state.
     */
    method ResolveInboxThenSpecial(ei: ImapFolder, e: ImapFolder) returns (r: MailFolder)
      requires Valid() && ei.name == "INBOX" && e.name != "INBOX" && FirstSpecial(e.attributes) < |SpecialRoles|
      modifies Repr
      ensures r in root && r.role == Some(SpecialRoles[FirstSpecial(e.attributes)])
      ensures inbox.name == old(inbox.name) && inbox.path == old(inbox.path)
      ensures inbox.attr == old(inbox.attr) + ToSet(ei.attributes)
      ensures r.name == e.name && r.path == e.name && r.attr == old(r.attr) + ToSet(e.attributes)
      ensures inbox.children == old(inbox.children) && r.children == old(r.children) && nodes == old(nodes)
      ensures forall f :: f in root && f != inbox && f != r ==> f.State() == old(f.State())
      ensures rootPaths == old(rootPaths)["INBOX" := inbox][e.name := r]
    {
      ResolveInbox(ei);
      r := ResolveSpecial(e);
      assert r != inbox;
    }

    /** The same two entries the other way round: the same roots and the same ROOT_PATHS. */
    method ResolveSpecialThenInbox(e: ImapFolder, ei: ImapFolder) returns (r: MailFolder)
      requires Valid() && ei.name == "INBOX" && e.name != "INBOX" && FirstSpecial(e.attributes) < |SpecialRoles|
      modifies Repr
      ensures r in root && r.role == Some(SpecialRoles[FirstSpecial(e.attributes)])
      ensures inbox.name == old(inbox.name) && inbox.path == old(inbox.path)
      ensures inbox.attr == old(inbox.attr) + ToSet(ei.attributes)
      ensures r.name == e.name && r.path == e.name && r.attr == old(r.attr) + ToSet(e.attributes)
      ensures inbox.children == old(inbox.children) && r.children == old(r.children) && nodes == old(nodes)
      ensures forall f :: f in root && f != inbox && f != r ==> f.State() == old(f.State())
      ensures rootPaths == old(rootPaths)["INBOX" := inbox][e.name := r]
    {
      r := ResolveSpecial(e);
      assert inbox in root && r != inbox;
      ResolveInbox(ei);
      UpdatesCommute(old(rootPaths), e.name, r, "INBOX", inbox);
    }

    /**
     * An entry below a registered root: from the root, scan the name and
     * descend at each delimiter into the first child named like the current
     * slice; then attach one new folder where the walk ends.
     */
    method FileNested(e: ImapFolder)
      requires Valid() && Nested(e)
      modifies this, Descend(e).parent`children
      ensures Valid() && fresh(Repr - old(Repr))
      ensures forall i :: |old(nodes)| <= i < |nodes| ==> fresh(nodes[i])
      ensures Filed(e)
    {
      ghost var w := Descend(e);
      assert Target(e) == Some(w.parent);
      var n := IndexOf(e.name, e.delimiter);
      var pObj, pIdx := Locate(e.name, e.delimiter, rootPaths[e.name[..n]], n + 1);
      assert pObj == w.parent && pIdx == w.start;
      // pObj always refers to a folder here: the `pObj == undefined` test cannot succeed
      var child := Attach(pObj, SliceFrom(e.name, pIdx), e.name, e.attributes);
    }

    /** The INBOX entry: its attributes join those of the Inbox root, and the name INBOX is registered for it. */
    method MergeInbox(e: ImapFolder)
      requires Valid() && e.name == "INBOX"
      modifies this`rootPaths, inbox`attr
      ensures Valid()
      ensures Filed(e)
    {
      assert inbox == nodes[0];
      inbox.AddAttrs(e.attributes);
      rootPaths := rootPaths[e.name := inbox];
    }

    /** A special-use entry: the root takes the entry's name as both local name and path, and its attributes. */
    method Rename(k: nat, e: ImapFolder)
      requires Valid() && e.name != "INBOX" && k == FirstSpecial(e.attributes) < |SpecialRoles|
      modifies this`rootPaths, RootOf(SpecialRoles[k])`name, RootOf(SpecialRoles[k])`path, RootOf(SpecialRoles[k])`attr
      ensures Valid()
      ensures Filed(e)
    {
      var v := RootOf(SpecialRoles[k]);
      assert v == nodes[RootIndex(SpecialRoles[k])];
      v.name := e.name;
      v.AddAttrs(e.attributes);
      v.path := e.name;
      rootPaths := rootPaths[e.name := v];
    }

    method Locate(name: string, d: string, start: MailFolder, sIdx: nat) returns (pObj: MailFolder, pIdx: nat)
      requires Closed() && start in folders
      ensures pObj == Walk(name, d, start, sIdx, sIdx).parent && pIdx == Walk(name, d, start, sIdx, sIdx).start
    {
      pObj := start;
      pIdx := sIdx;
      ghost var goal := Walk(name, d, start, sIdx, sIdx);
      var i := pIdx;
      while i < |name|
        invariant pIdx <= i && pObj in folders
        invariant Walk(name, d, pObj, pIdx, i).parent == goal.parent
        invariant Walk(name, d, pObj, pIdx, i).start == goal.start
        decreases |name| - i
      {
        ghost var next := Step(name, d, pObj, pIdx, i);
        if CharIs(name, i, d) {
          var c := FirstNamed(pObj.children, name[pIdx..i]);
          if c != -1 {
            pObj := pObj.children[c];
            pIdx := i + 1;
          }
        }
        assert (pObj, pIdx) == next;
        i := i + 1;
      }
    }

    /** Create a folder and push it onto the children of `p`. */
    method Attach(p: MailFolder, name: string, path: string, attrs: seq<string>) returns (child: MailFolder)
      requires Valid() && p in folders
      modifies this, p`children
      ensures Valid() && fresh(child) && Repr == old(Repr) + {child}
      ensures nodes == old(nodes) + [child] && folders == old(folders) + {child} && rootPaths == old(rootPaths)
      ensures child.State() == FolderState(name, path, ToSet(attrs), [])
      ensures p.children == old(p.children) + [child]
    {
      child := new MailFolder(name, path, ToSet(attrs));
      assert child !in folders;
      p.children := p.children + [child];
      nodes := nodes + [child];
      folders := folders + {child};
      Repr := Repr + {child};
      forall n, k | n in folders && 0 <= k < |n.children|
        ensures n.children[k] in folders
      {
        if n != p {
          assert n != child && n.children == old(n.children);
        } else if k < |old(p.children)| {
          assert n.children[k] == old(p.children)[k];
        }
      }
    }
  }

  /** A string cut around the delimiter at position `i`, whose part after the delimiter is `j + r`. */
  lemma SplitJoin(s: string, a: nat, i: nat, d: string, j: string, r: string)
    requires a <= i < |s| && CharIs(s, i, d) && s[i + 1..] == j + r
    ensures s[a..] == (s[a..i] + d + j) + r
  {
    assert s[a..] == s[a..i] + [s[i]] + s[i + 1..];
  }

  /** A string cut at an occurrence of a one-character delimiter, whose part after it is `t` and then the tail from `k`. */
  lemma CutAt(s: string, d: string, n: nat, t: string, k: nat)
    requires OccursAt(s, d, n) && |d| == 1 && n < k <= |s| && s[n + 1..] == t + s[k..]
    ensures s == s[..n] + d + t + SliceFrom(s, k)
  {
    assert s == s[..n] + s[n..n + 1] + s[n + 1..];
  }

  /** Map updates at two different keys can be made in either order. */
  lemma UpdatesCommute<K, V>(m: map<K, V>, a: K, x: V, b: K, y: V)
    requires a != b
    ensures m[a := x][b := y] == m[b := y][a := x]
  {
  }

  /** `new Set(s)` for a string `s`: the set of its one-character strings. */
  function CharSet(s: string): set<string>
  {
    set c | c in s :: [c]
  }

  /** `new Set(s)` holds exactly the one-character strings of the characters of `s`; for `""` it is empty. */
  lemma CharSetMembers(s: string)
    ensures forall x :: x in CharSet(s) <==> |x| == 1 && x[0] in s
    ensures CharSet("") == {}
  {
    forall x | |x| == 1 && x[0] in s
      ensures x in CharSet(s)
    {
      assert x == [x[0]];
    }
  }
}
