/**
 * Concrete runs of resolveFolder. Each step files one LIST entry and states
 * the part of the tree the next step relies on; the runs chain the steps.
 */
module Scenario {
  import opened Js
  import opened Imap
  import opened Folder

  const ArchiveEntry: ImapFolder := ImapFolder("Archive", "/", ["\\Archive"])
  const InboxEntry: ImapFolder := ImapFolder("INBOX", "/", [])
  const SubEntry: ImapFolder := ImapFolder("INBOX/sub", "/", [])
  const LeafEntry: ImapFolder := ImapFolder("INBOX/sub/leaf", "/", [])

  /** The Archive entry renames the Archive root and leaves the Inbox alone. */
  method FileArchive(fm: FolderManager)
    requires fm.Valid()
    modifies fm.Repr
    ensures fm.Valid() && fresh(fm.Repr - old(fm.Repr))
    ensures fm.archive.name == "Archive" && fm.archive.path == "Archive"
    ensures fm.inbox.children == old(fm.inbox.children)
    ensures fm.rootPaths == old(fm.rootPaths)["Archive" := fm.archive]
  {
    ArchiveIsSpecial();
    RootPlaces(fm);
    fm.ResolveFolder(ArchiveEntry);
  }

  /** `\\Archive` is the first special-use marker the Archive entry carries, at position 2 of ROOT_SPECIAL order. */
  lemma ArchiveIsSpecial()
    ensures FirstSpecial(ArchiveEntry.attributes) == 2
    ensures SpecialRoles[2] == Archive
  {
    var a := ArchiveEntry.attributes;
    assert Marker(Drafts) !in a by { assert Marker(Drafts)[1] != a[0][1]; }
    assert Marker(Sent) !in a by { assert Marker(Sent)[1] != a[0][1]; }
    assert Marker(Archive) == a[0];
    assert FirstSpecialFrom(a, 2) == 2;
    assert FirstSpecialFrom(a, 1) == 2;
  }

  /** The Inbox and Archive roots sit at positions 0 and 3 of `nodes`. */
  lemma RootPlaces(fm: FolderManager)
    requires fm.Valid()
    ensures fm.nodes[0] == fm.inbox && fm.nodes[3] == fm.archive
  {
    assert fm.nodes[..RootCount][0] == fm.inbox;
    assert fm.nodes[..RootCount][3] == fm.archive;
  }

  /** The INBOX entry registers the name INBOX for the Inbox root. */
  method FileInbox(fm: FolderManager)
    requires fm.Valid()
    modifies fm.Repr
    ensures fm.Valid() && fresh(fm.Repr - old(fm.Repr))
    ensures fm.archive.name == old(fm.archive.name) && fm.archive.path == old(fm.archive.path)
    ensures fm.inbox.children == old(fm.inbox.children)
    ensures fm.rootPaths == old(fm.rootPaths)["INBOX" := fm.inbox]
  {
    RootPlaces(fm);
    fm.ResolveFolder(InboxEntry);
  }

  /** `INBOX/sub`: a new child `sub` is appended to the children of the Inbox, whatever they are. */
  method FileSub(fm: FolderManager) returns (sub: MailFolder)
    requires fm.Valid() && "INBOX" in fm.rootPaths && fm.rootPaths["INBOX"] == fm.inbox
    modifies fm.Repr
    ensures fm.Valid() && fresh(fm.Repr - old(fm.Repr))
    ensures fm.archive.name == old(fm.archive.name) && fm.archive.path == old(fm.archive.path)
    ensures fm.rootPaths == old(fm.rootPaths)
    ensures fm.inbox.children == old(fm.inbox.children) + [sub]
    ensures fresh(sub) && sub in fm.nodes && sub != fm.inbox
    ensures sub.State() == FolderState("sub", "INBOX/sub", {}, [])
    ensures forall c :: c in old(fm.inbox.children) ==> c.name == old(c.name) && c.path == old(c.path)
  {
    RootPlaces(fm);
    SubDescent(fm);
    fm.ResolveFolder(SubEntry);
    ghost var created := fm.nodes[|old(fm.nodes)|];
    assert fm.inbox.children == old(fm.inbox.children) + [created];
    sub := fm.inbox.children[|fm.inbox.children| - 1];
    forall c | c in old(fm.inbox.children)
      ensures c.name == old(c.name) && c.path == old(c.path)
    {
      var k :| 0 <= k < |old(fm.inbox.children)| && old(fm.inbox.children)[k] == c;
      assert c in old(fm.folders);
    }
  }

  /** `INBOX/sub` has no delimiter after its first segment, so the walk stays at the Inbox, with `sub` left over. */
  lemma SubDescent(fm: FolderManager)
    requires fm.Valid() && "INBOX" in fm.rootPaths && fm.rootPaths["INBOX"] == fm.inbox
    ensures fm.Nested(SubEntry) && fm.Descend(SubEntry) == Descent(fm.inbox, 6, [])
  {
    var n := SubEntry.name;
    FirstRootSegment(n, 9);
    assert fm.inbox in fm.folders;
    assert fm.Walk(n, "/", fm.inbox, 6, 9) == Descent(fm.inbox, 6, []);
    assert fm.Walk(n, "/", fm.inbox, 6, 8) == Descent(fm.inbox, 6, []);
    assert fm.Walk(n, "/", fm.inbox, 6, 7) == Descent(fm.inbox, 6, []);
    assert fm.Walk(n, "/", fm.inbox, 6, 6) == Descent(fm.inbox, 6, []);
  }

  /** A name that starts with `INBOX/` has its first delimiter at position 5 and `INBOX` as its first segment. */
  lemma FirstRootSegment(n: string, len: nat)
    requires |n| == len && len > 6 && n[..6] == "INBOX/"
    ensures IndexOf(n, "/") == 5 && n[..5] == "INBOX"
  {
    assert OccursAt(n, "/", 5);
    forall k | 0 <= k < 5
      ensures !OccursAt(n, "/", k)
    {
      assert n[k] == "INBOX"[k];
    }
  }

  /** `INBOX/sub/leaf` once `sub` is there: the walk descends into `sub`, and `leaf` becomes its child. */
  method FileLeaf(fm: FolderManager, sub: MailFolder) returns (leaf: MailFolder)
    requires fm.Valid() && "INBOX" in fm.rootPaths && fm.rootPaths["INBOX"] == fm.inbox
    requires fm.inbox.children == [sub] && sub.name == "sub" && sub.children == []
    modifies fm.Repr
    ensures fm.Valid() && fresh(fm.Repr - old(fm.Repr))
    ensures fm.archive.name == old(fm.archive.name) && fm.archive.path == old(fm.archive.path)
    ensures fm.inbox.children == [sub] && sub.name == old(sub.name) && sub.path == old(sub.path)
    ensures sub.children == [leaf] && leaf.State() == FolderState("leaf", "INBOX/sub/leaf", {}, [])
  {
    RootPlaces(fm);
    LeafDescent(fm, sub);
    assert sub in fm.folders;
    fm.ResolveFolder(LeafEntry);
    ghost var created := fm.nodes[|old(fm.nodes)|];
    assert sub.children == [created];
    leaf := sub.children[0];
  }

  /** With `sub` the one child of the Inbox, the walk for `INBOX/sub/leaf` descends into `sub`, with `leaf` left over. */
  lemma LeafDescent(fm: FolderManager, sub: MailFolder)
    requires fm.Valid() && "INBOX" in fm.rootPaths && fm.rootPaths["INBOX"] == fm.inbox
    requires fm.inbox.children == [sub] && sub.name == "sub" && sub.children == []
    ensures fm.Nested(LeafEntry) && fm.Descend(LeafEntry) == Descent(sub, 10, [sub])
  {
    var n := LeafEntry.name;
    FirstRootSegment(n, 14);
    assert fm.inbox in fm.folders && fm.inbox.children[0] in fm.folders;
    LeafInSub(fm, sub);
    LeafName();
    assert FirstNamed(fm.inbox.children, n[6..9]) == 0;
    assert fm.Walk(n, "/", fm.inbox, 6, 9) == Descent(sub, 10, [sub]);
    assert fm.Walk(n, "/", fm.inbox, 6, 8) == Descent(sub, 10, [sub]);
    assert fm.Walk(n, "/", fm.inbox, 6, 7) == Descent(sub, 10, [sub]);
    assert fm.Walk(n, "/", fm.inbox, 6, 6) == Descent(sub, 10, [sub]);
  }

  /** `INBOX/sub/leaf` has the segment `sub` at positions 6 to 8 and a delimiter at 9. */
  lemma LeafName()
    ensures LeafEntry.name[6..9] == "sub" && CharIs(LeafEntry.name, 9, "/")
  {
    var n := LeafEntry.name;
    assert n[6] == 's' && n[7] == 'u' && n[8] == 'b' && n[9] == '/';
  }

  /** Past `INBOX/sub/`, no delimiter is left: the walk stays in `sub`. */
  lemma LeafInSub(fm: FolderManager, sub: MailFolder)
    requires fm.Closed() && sub in fm.folders
    ensures fm.Walk(LeafEntry.name, "/", sub, 10, 10) == Descent(sub, 10, [])
  {
    var n := LeafEntry.name;
    assert fm.Walk(n, "/", sub, 10, 13) == Descent(sub, 10, []);
    assert fm.Walk(n, "/", sub, 10, 12) == Descent(sub, 10, []);
    assert fm.Walk(n, "/", sub, 10, 11) == Descent(sub, 10, []);
  }

  /**
   * `INBOX/sub/leaf` while the Inbox has no children: no child is named
   * `sub`, so the walk stays at the Inbox and the new child of the Inbox is
   * named `sub/leaf`.
   */
  method FileOrphanLeaf(fm: FolderManager) returns (leaf: MailFolder)
    requires fm.Valid() && "INBOX" in fm.rootPaths && fm.rootPaths["INBOX"] == fm.inbox
    requires fm.inbox.children == []
    modifies fm.Repr
    ensures fm.Valid() && fresh(fm.Repr - old(fm.Repr))
    ensures fm.rootPaths == old(fm.rootPaths)
    ensures fm.inbox.children == [leaf] && leaf.State() == FolderState("sub/leaf", "INBOX/sub/leaf", {}, [])
    ensures leaf in fm.nodes && leaf != fm.inbox
  {
    RootPlaces(fm);
    OrphanDescent(fm);
    fm.ResolveFolder(LeafEntry);
    ghost var created := fm.nodes[|old(fm.nodes)|];
    assert fm.inbox.children == [created];
    OrphanName();
    leaf := fm.inbox.children[0];
  }

  /** Cut after `INBOX/`, the name leaves `sub/leaf`, and the entry carries no attributes. */
  lemma OrphanName()
    ensures SliceFrom(LeafEntry.name, 6) == "sub/leaf" && ToSet(LeafEntry.attributes) == {}
  {
  }

  /** From the Inbox with no children, the walk for `INBOX/sub/leaf` finds no `sub` and stays at the Inbox. */
  lemma OrphanDescent(fm: FolderManager)
    requires fm.Valid() && "INBOX" in fm.rootPaths && fm.rootPaths["INBOX"] == fm.inbox
    requires fm.inbox.children == []
    ensures fm.Nested(LeafEntry) && fm.Descend(LeafEntry) == Descent(fm.inbox, 6, [])
  {
    var n := LeafEntry.name;
    FirstRootSegment(n, 14);
    assert fm.inbox in fm.folders;
    assert fm.Walk(n, "/", fm.inbox, 6, 13) == Descent(fm.inbox, 6, []);
    assert fm.Walk(n, "/", fm.inbox, 6, 12) == Descent(fm.inbox, 6, []);
    assert fm.Walk(n, "/", fm.inbox, 6, 11) == Descent(fm.inbox, 6, []);
    assert fm.Walk(n, "/", fm.inbox, 6, 10) == Descent(fm.inbox, 6, []);
    assert fm.Walk(n, "/", fm.inbox, 6, 9) == Descent(fm.inbox, 6, []);
    assert fm.Walk(n, "/", fm.inbox, 6, 8) == Descent(fm.inbox, 6, []);
    assert fm.Walk(n, "/", fm.inbox, 6, 7) == Descent(fm.inbox, 6, []);
    assert fm.Walk(n, "/", fm.inbox, 6, 6) == Descent(fm.inbox, 6, []);
  }

  /**
   * The LIST reply Archive, INBOX, INBOX/sub, INBOX/sub/leaf, already in
   * depth order: the Inbox gets the child `sub`, which gets the child
   * `leaf`, and the Archive root takes the server's name.
   */
  method SortedReply() returns (fm: FolderManager, sub: MailFolder, leaf: MailFolder)
    ensures fm.inbox.children == [sub] && sub.children == [leaf]
    ensures sub.name == "sub" && sub.path == "INBOX/sub"
    ensures leaf.name == "leaf" && leaf.path == "INBOX/sub/leaf"
    ensures fm.archive.name == "Archive" && fm.archive.path == "Archive"
  {
    fm := new FolderManager();
    FileArchive(fm);
    FileInbox(fm);
    sub := FileSub(fm);
    leaf := FileLeaf(fm, sub);
  }

  /**
   * The LIST reply INBOX, INBOX/sub/leaf, INBOX/sub, out of depth order: the
   * leaf comes before its parent exists, so it is attached to the Inbox
   * itself under the local name `sub/leaf`, and `sub` becomes a second,
   * empty child of the Inbox. This is why the WebSocket handler sorts a
   * LIST reply by depth before filing it.
   */
  method UnsortedReply() returns (fm: FolderManager, leaf: MailFolder, sub: MailFolder)
    ensures fm.inbox.children == [leaf, sub]
    ensures leaf.name == "sub/leaf" && leaf.path == "INBOX/sub/leaf"
    ensures sub.name == "sub" && sub.path == "INBOX/sub" && sub.children == []
  {
    fm := new FolderManager();
    FileInbox(fm);
    leaf := FileOrphanLeaf(fm);
    sub := FileSub(fm);
  }

  /**
   * The LIST reply INBOX, INBOX/sub, INBOX/sub: nothing checks for a child
   * of the same name, so the Inbox gets two distinct children named `sub`.
   */
  method DuplicateReply() returns (fm: FolderManager, first: MailFolder, second: MailFolder)
    ensures fm.inbox.children == [first, second] && first != second
    ensures first.name == "sub" && second.name == "sub"
    ensures first.path == "INBOX/sub" && second.path == "INBOX/sub"
  {
    fm := new FolderManager();
    FileInbox(fm);
    first := FileSub(fm);
    second := FileSub(fm);
  }
}
