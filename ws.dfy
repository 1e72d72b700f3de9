/**
 * The frame dispatcher of src/logic/ws.ts. An inbound frame is a value
 * (the JSON text is already parsed); what the client writes back is the log
 * kept by the Socket. A `list` frame drops the entries marked \Noselect,
 * sorts the rest in place by how many delimiters their names contain
 * (shallow first, stable) and files them one by one into the folder tree; a
 * `fetch` frame turns the raw messages into MailMessages and hands them to
 * the message cache.
 */
module Ws {
  import opened Js
  import opened Imap
  import opened Wire
  import opened Folder
  import opened Message

  /** The marker of a mailbox that cannot be selected (RFC 3501 section 7.2.2). */
  const NoSelect: string := "\\Noselect"

  /** The parsed inbound frame: `auth`, `type`, `value` (read as LIST entries or as messages) and `sync`. */
  datatype Inbound = Inbound(
    auth: Option<string>,
    kind: Option<string>,
    folders: seq<ImapFolder>,
    messages: seq<ImapMessage>,
    sync: int)

  /** `imapFolders.filter(x => !x.Attributes.includes("\\Noselect"))`. */
  function Selectable(s: seq<ImapFolder>): (r: seq<ImapFolder>)
    ensures |r| <= |s|
    ensures forall x :: x in r <==> x in s && NoSelect !in x.attributes
  {
    if s == [] then []
    else
      var rest := Selectable(s[..|s| - 1]);
      var x := s[|s| - 1];
      assert s == s[..|s| - 1] + [x];
      if NoSelect in x.attributes then rest else rest + [x]
  }

  /**
   * The filter distributes over concatenation and keeps or drops each entry
   * on its own: the entries it keeps stay in the server's order, each as
   * often as it was listed.
   */
  lemma {:induction false} SelectableAppend(s: seq<ImapFolder>, t: seq<ImapFolder>)
    ensures Selectable(s + t) == Selectable(s) + Selectable(t)
    ensures |t| == 1 ==> Selectable(t) == if NoSelect in t[0].attributes then [] else t
    decreases |t|
  {
    if t == [] {
      assert s + t == s;
    } else {
      var u, x := t[..|t| - 1], t[|t| - 1];
      assert t == u + [x] && s + t == (s + u) + [x];
      SelectableAppend(s, u);
      SelectableSnoc(s + u, x);
      SelectableSnoc(u, x);
      if |t| == 1 {
        assert u == [];
      }
    }
  }

  /** One more entry at the end is kept or dropped on its own. */
  lemma SelectableSnoc(u: seq<ImapFolder>, x: ImapFolder)
    ensures Selectable(u + [x]) == Selectable(u) + if NoSelect in x.attributes then [] else [x]
  {
    assert (u + [x])[..|u|] == u;
  }

  /** `countChar(x.Name, x.Delimiter)`: how deep the entry sits below the top level. */
  function Depth(x: ImapFolder): nat
  {
    CountChar(x.name, x.delimiter)
  }

  predicate SortedByDepth(s: seq<ImapFolder>)
  {
    forall i, j :: 0 <= i < j < |s| ==> Depth(s[i]) <= Depth(s[j])
  }

  /** All but the last entry. */
  function Init(s: seq<ImapFolder>): seq<ImapFolder>
    requires s != []
  {
    s[..|s| - 1]
  }

  /** The entries of depth `k`, in the order they appear in `s`. */
  function AtDepth(s: seq<ImapFolder>, k: nat): seq<ImapFolder>
  {
    if s == [] then []
    else AtDepth(s[..|s| - 1], k) + (if Depth(s[|s| - 1]) == k then [s[|s| - 1]] else [])
  }

  lemma {:induction false} AtDepthAppend(a: seq<ImapFolder>, b: seq<ImapFolder>, k: nat)
    ensures AtDepth(a + b, k) == AtDepth(a, k) + AtDepth(b, k)
    decreases |b|
  {
    if b == [] {
      assert a + b == a;
    } else {
      var c := b[..|b| - 1];
      assert a + b == (a + c) + [b[|b| - 1]];
      assert (a + b)[..|a + b| - 1] == a + c;
      AtDepthAppend(a, c, k);
    }
  }

  /** Two entries of different depths: at most one of them counts at any depth. */
  lemma PairAtDepth(x: ImapFolder, y: ImapFolder, k: nat)
    requires Depth(x) != Depth(y)
    ensures AtDepth([x, y], k) == AtDepth([y, x], k)
  {
    assert [x, y][..1] == [x] && [y, x][..1] == [y];
    assert [x][..0] == [] && [y][..0] == [];
  }

  /** Swapping two neighbours of different depths changes no entry's place among those of its own depth. */
  lemma SwapKeepsAtDepth(s: seq<ImapFolder>, j: nat, k: nat)
    requires j + 1 < |s| && Depth(s[j]) != Depth(s[j + 1])
    ensures AtDepth(s[..j] + [s[j + 1], s[j]] + s[j + 2..], k) == AtDepth(s, k)
  {
    var pre, post := s[..j], s[j + 2..];
    var x, y := s[j], s[j + 1];
    assert s == pre + [x, y] + post;
    AtDepthAppend(pre + [x, y], post, k);
    AtDepthAppend(pre + [y, x], post, k);
    AtDepthAppend(pre, [x, y], k);
    AtDepthAppend(pre, [y, x], k);
    PairAtDepth(x, y, k);
  }

  /** An entry occurs in `s` as often as among the entries of its own depth. */
  lemma {:induction false} CountAtDepth(s: seq<ImapFolder>, x: ImapFolder)
    ensures multiset(s)[x] == multiset(AtDepth(s, Depth(x)))[x]
    decreases |s|
  {
    if s != [] {
      var init := s[..|s| - 1];
      assert s == init + [s[|s| - 1]];
      CountAtDepth(init, x);
    }
  }

  /** Orders with the same entries at every depth are rearrangements of each other. */
  lemma SameAtDepthPermutation(s: seq<ImapFolder>, t: seq<ImapFolder>)
    requires forall k :: AtDepth(s, k) == AtDepth(t, k)
    ensures multiset(s) == multiset(t)
  {
    forall x | true
      ensures multiset(s)[x] == multiset(t)[x]
    {
      CountAtDepth(s, x);
      CountAtDepth(t, x);
    }
  }

  /** The last entry counts at its own depth. */
  lemma LastAtDepth(s: seq<ImapFolder>)
    requires s != []
    ensures AtDepth(s, Depth(s[|s| - 1])) != []
  {
  }

  /** The deepest entry of an order sorted by depth comes last. */
  lemma LastIsDeepest(s: seq<ImapFolder>, k: nat)
    requires SortedByDepth(s) && AtDepth(s, k) != []
    ensures s != [] && k <= Depth(s[|s| - 1])
  {
    var i := PositionAtDepth(s, k);
    if i < |s| - 1 {
      assert Depth(s[i]) <= Depth(s[|s| - 1]);
    }
  }

  /** Where some entry of depth `k` stands in `s`. */
  lemma {:induction false} PositionAtDepth(s: seq<ImapFolder>, k: nat) returns (i: nat)
    requires AtDepth(s, k) != []
    ensures i < |s| && Depth(s[i]) == k
    decreases |s|
  {
    var init := s[..|s| - 1];
    if Depth(s[|s| - 1]) == k {
      i := |s| - 1;
    } else {
      i := PositionAtDepth(init, k);
    }
  }

  /** Two depth-sorted orders with the same entries at the depths of their last entries end with the same entry. */
  lemma SameLast(s: seq<ImapFolder>, t: seq<ImapFolder>)
    requires SortedByDepth(s) && SortedByDepth(t) && s != [] && t != []
    requires AtDepth(s, Depth(s[|s| - 1])) == AtDepth(t, Depth(s[|s| - 1]))
    requires AtDepth(s, Depth(t[|t| - 1])) == AtDepth(t, Depth(t[|t| - 1]))
    ensures s[|s| - 1] == t[|t| - 1]
  {
    var x, y := s[|s| - 1], t[|t| - 1];
    LastAtDepth(s);
    LastAtDepth(t);
    LastIsDeepest(t, Depth(x));
    LastIsDeepest(s, Depth(y));
    var a, b := AtDepth(s[..|s| - 1], Depth(x)), AtDepth(t[..|t| - 1], Depth(y));
    assert AtDepth(s, Depth(x)) == a + [x];
    assert AtDepth(t, Depth(y)) == b + [y];
    assert (a + [x])[|a|] == x && (b + [y])[|b|] == y;
  }

  /** Dropping the same last entry keeps the entries of depth `k` equal. */
  lemma SameInit(s: seq<ImapFolder>, t: seq<ImapFolder>, k: nat)
    requires s != [] && t != [] && s[|s| - 1] == t[|t| - 1]
    requires AtDepth(s, k) == AtDepth(t, k)
    ensures AtDepth(s[..|s| - 1], k) == AtDepth(t[..|t| - 1], k)
  {
    var x := s[|s| - 1];
    var a, b := AtDepth(s[..|s| - 1], k), AtDepth(t[..|t| - 1], k);
    var e := if Depth(x) == k then [x] else [];
    assert AtDepth(s, k) == a + e;
    assert AtDepth(t, k) == b + e;
    assert (a + e)[..|a|] == a && (b + e)[..|b|] == b;
  }

  /** One step of the uniqueness argument: both orders end alike, and what precedes agrees at every depth. */
  lemma DropLast(s: seq<ImapFolder>, t: seq<ImapFolder>)
    requires SortedByDepth(s) && SortedByDepth(t) && s != [] && t != []
    requires forall k :: AtDepth(s, k) == AtDepth(t, k)
    ensures s[|s| - 1] == t[|t| - 1]
    ensures SortedByDepth(Init(s)) && SortedByDepth(Init(t))
    ensures forall k :: AtDepth(Init(s), k) == AtDepth(Init(t), k)
  {
    SameLast(s, t);
    forall k
      ensures AtDepth(Init(s), k) == AtDepth(Init(t), k)
    {
      SameInit(s, t, k);
    }
  }

  /**
   * There is only one order sorted by depth that keeps the entries of each
   * depth in a given order: the stable sort of a sequence is determined by
   * the sequence.
   */
  lemma {:induction false} StableSortUnique(s: seq<ImapFolder>, t: seq<ImapFolder>)
    requires SortedByDepth(s) && SortedByDepth(t)
    requires forall k :: AtDepth(s, k) == AtDepth(t, k)
    ensures s == t
    decreases |s| + |t|
  {
    if s == [] && t == [] {
    } else if s == [] {
      LastAtDepth(t);
      assert false;
    } else if t == [] {
      LastAtDepth(s);
      assert false;
    } else {
      DropLast(s, t);
      StableSortUnique(Init(s), Init(t));
      assert s == Init(s) + [s[|s| - 1]] && t == Init(t) + [t[|t| - 1]];
    }
  }

  /**
   * `imapFolders.sort((a, b) => countChar(a) - countChar(b))`: an in-place
   * stable sort by depth (ECMA-262 requires Array.prototype.sort to be
   * stable), written as an insertion sort.
   */
  method SortByDepth(a: array<ImapFolder>)
    modifies a
    ensures SortedByDepth(a[..])
    ensures forall k :: AtDepth(a[..], k) == AtDepth(old(a[..]), k)
  {
    for i := 0 to a.Length
      invariant SortedByDepth(a[..i])
      invariant forall k :: AtDepth(a[..], k) == AtDepth(old(a[..]), k)
    {
      InsertAt(a, i);
    }
  }

  /** `s` with its neighbours at `j` and `j + 1` exchanged. */
  function Swap(s: seq<ImapFolder>, j: nat): (r: seq<ImapFolder>)
    requires j + 1 < |s|
    ensures |r| == |s| && r[j] == s[j + 1] && r[j + 1] == s[j]
    ensures forall p :: 0 <= p < |s| && p != j && p != j + 1 ==> r[p] == s[p]
  {
    s[..j] + [s[j + 1], s[j]] + s[j + 2..]
  }

  /**
   * Half-way through inserting `s[i]`: it has reached position `j`, the
   * first `i + 1` entries are in order apart from it, and those it has
   * passed are deeper than it.
   */
  predicate Inserting(s: seq<ImapFolder>, i: nat, j: nat)
  {
    j <= i < |s|
    && (forall p, q :: 0 <= p < q <= i && p != j && q != j ==> Depth(s[p]) <= Depth(s[q]))
    && (forall q :: j < q <= i ==> Depth(s[j]) < Depth(s[q]))
  }

  lemma InsertStep(s: seq<ImapFolder>, i: nat, j: nat)
    requires Inserting(s, i, j) && 0 < j && Depth(s[j - 1]) > Depth(s[j])
    ensures Inserting(Swap(s, j - 1), i, j - 1)
  {
  }

  lemma SwapKeepsDepths(s: seq<ImapFolder>, j: nat)
    requires j + 1 < |s| && Depth(s[j]) != Depth(s[j + 1])
    ensures forall k :: AtDepth(Swap(s, j), k) == AtDepth(s, k)
  {
    forall k
      ensures AtDepth(Swap(s, j), k) == AtDepth(s, k)
    {
      SwapKeepsAtDepth(s, j, k);
    }
  }

  lemma InsertDone(s: seq<ImapFolder>, i: nat, j: nat)
    requires Inserting(s, i, j) && (j == 0 || Depth(s[j - 1]) <= Depth(s[j]))
    ensures SortedByDepth(s[..i + 1])
  {
  }

  /** Moves `a[i]` left past the deeper entries before it. */
  method InsertAt(a: array<ImapFolder>, i: nat)
    requires i < a.Length && SortedByDepth(a[..i])
    modifies a
    ensures SortedByDepth(a[..i + 1])
    ensures forall k :: AtDepth(a[..], k) == AtDepth(old(a[..]), k)
  {
    var j: nat := i;
    while j > 0 && Depth(a[j - 1]) > Depth(a[j])
      invariant Inserting(a[..], i, j)
      invariant forall k :: AtDepth(a[..], k) == AtDepth(old(a[..]), k)
    {
      ghost var s := a[..];
      InsertStep(s, i, j);
      SwapKeepsDepths(s, j - 1);
      a[j - 1], a[j] := a[j], a[j - 1];
      assert a[..] == Swap(s, j - 1);
      j := j - 1;
    }
    InsertDone(a[..], i, j);
  }

  /** `{action: "list", args: ["", "*"]}`: list every mailbox, sent once the server accepts the token. */
  const ListRequest: Outbound := Outbound("list", ListArgs(["", "*"]))

  /** The selectable entries of `fs` in a new array, sorted by depth and stable. */
  method SortSelectable(fs: seq<ImapFolder>) returns (a: array<ImapFolder>)
    ensures fresh(a) && SortedByDepth(a[..])
    ensures forall k :: AtDepth(a[..], k) == AtDepth(Selectable(fs), k)
    ensures multiset(a[..]) == multiset(Selectable(fs))
  {
    var sel := Selectable(fs);
    a := new ImapFolder[|sel|](i requires 0 <= i < |sel| => sel[i]);
    assert a[..] == sel;
    SortByDepth(a);
    SameAtDepthPermutation(a[..], sel);
  }

  /** `imapMsg.map(x => new MailMessage(x))`, everything stamped at time `now`. */
  function Mails(ms: seq<ImapMessage>, now: nat): (r: seq<MailMessage>)
    ensures |r| == |ms|
    ensures forall i :: 0 <= i < |ms| ==> r[i] == Mail(ms[i], now)
  {
    if ms == [] then [] else Mails(ms[..|ms| - 1], now) + [Mail(ms[|ms| - 1], now)]
  }

  /** Runs the MailMessage constructor on every raw message, in order. */
  method ToMailMessages(ms: seq<ImapMessage>, now: nat) returns (r: seq<MailMessage>)
    ensures r == Mails(ms, now)
  {
    r := [];
    for i := 0 to |ms|
      invariant r == Mails(ms[..i], now)
    {
      var x := NewMailMessage(ms[i], now);
      assert ms[..i + 1][..i] == ms[..i];
      r := r + [x];
    }
    assert ms[..|ms|] == ms;
  }

  /**
   * Registered root names `k1` and folders `n1` are what filing `es` can
   * make of `k0` and `n0`: the root names of `es` are added, the folders
   * keep their places, and at most one folder is added per entry.
   */
  ghost predicate Grown(k0: set<string>, n0: seq<MailFolder>, k1: set<string>, n1: seq<MailFolder>, es: seq<ImapFolder>)
  {
    && k1 == k0 + RootNames(es)
    && |n0| <= |n1| <= |n0| + |es|
    && n1[..|n0|] == n0
  }

  /** Filing `s` and then `t` grows the tree as filing `s + t` may. */
  lemma GrownTrans(k0: set<string>, n0: seq<MailFolder>, k1: set<string>, n1: seq<MailFolder>,
                   k2: set<string>, n2: seq<MailFolder>, s: seq<ImapFolder>, t: seq<ImapFolder>)
    requires Grown(k0, n0, k1, n1, s) && Grown(k1, n1, k2, n2, t)
    ensures Grown(k0, n0, k2, n2, s + t)
  {
    RootNamesAppend(s, t);
    assert n2[..|n0|] == n1[..|n1|][..|n0|];
  }

  /** The growth allowed by a run of entries does not depend on their order. */
  lemma GrownReordered(k0: set<string>, n0: seq<MailFolder>, k1: set<string>, n1: seq<MailFolder>,
                       s: seq<ImapFolder>, t: seq<ImapFolder>)
    requires Grown(k0, n0, k1, n1, s) && multiset(s) == multiset(t)
    ensures Grown(k0, n0, k1, n1, t)
  {
    assert |s| == |multiset(s)| == |multiset(t)| == |t|;
    assert forall e :: e in s <==> e in t by {
      assert forall e :: e in s <==> e in multiset(s);
      assert forall e :: e in t <==> e in multiset(t);
    }
    assert RootNames(s) == RootNames(t);
  }

  class WS {
    /** The WebSocket: the log of the frames written to it. */
    const socket: Socket
    const fm: FolderManager
    const mm: MessageManager
    /** Every LIST entry handed to fm.resolveFolder, in the order of the calls. */
    ghost var resolved: seq<ImapFolder>

    /** Both managers are valid, own disjoint objects, and the message cache writes to this socket. */
    ghost predicate Valid()
      reads this, fm, fm.Repr, mm, mm.Parts
    {
      && fm.Valid() && mm.Valid() && mm.ws == socket
      && fm.Repr !! mm.Parts && mm !in fm.Repr && socket !in fm.Repr
      && this !in fm.Repr && this !in mm.Parts
    }

    /** The connection is opened with `fm` and `mm`, and `mm.setWS` points the message cache at it. */
    constructor (fm: FolderManager, mm: MessageManager)
      requires fm.Valid() && mm.Valid() && fm.Repr !! mm.Parts && mm !in fm.Repr
      modifies mm`ws
      ensures Valid() && this.fm == fm && this.mm == mm
      ensures fresh(socket) && socket.sent == [] && resolved == []
    {
      var s := new Socket();
      socket := s;
      this.fm := fm;
      this.mm := mm;
      resolved := [];
      new;
      mm.SetWS(s);
    }

    /** `send(action, args)`: one `{action, args}` frame on the socket. */
    method Send(action: string, args: Args)
      requires Valid()
      modifies socket
      ensures Valid() && socket.sent == old(socket.sent) + [Outbound(action, args)]
    {
      socket.Send(action, args);
    }

    /**
     * What a `list` frame with entries `fs` does to the log of resolveFolder
     * calls: each selectable entry is resolved exactly once, shallower
     * entries before deeper ones, and entries of the same depth in the order
     * the server listed them.
     */
    twostate predicate ResolvedInOrder(fs: seq<ImapFolder>)
      reads this
    {
      var n := |old(resolved)|;
      && |resolved| == n + |Selectable(fs)| && resolved[..n] == old(resolved)
      && SortedByDepth(resolved[n..])
      && (forall k :: AtDepth(resolved[n..], k) == AtDepth(Selectable(fs), k))
      && multiset(resolved[n..]) == multiset(Selectable(fs))
    }

    /**
     * What filing the entries `es`, in any order, does to the tree as a
     * whole: exactly their root names are added to the registered ones, the
     * folders created before keep their places, and at most one folder is
     * added per entry.
     */
    twostate predicate Grew(es: seq<ImapFolder>)
      reads fm
    {
      Grown(old(fm.rootPaths.Keys), old(fm.nodes), fm.rootPaths.Keys, fm.nodes, es)
    }

    /** `handleMessage`: the handshake test is independent of the `type` test, so a frame may take both. */
    method HandleMessage(f: Inbound, now: nat)
      requires Valid()
      modifies this`resolved, socket, fm.Repr, mm, mm.Parts
      ensures Valid()
      ensures socket.sent == old(socket.sent) + (if f.auth == Some("ok") then [ListRequest] else [])
      ensures f.kind == Some("list") ==> ResolvedInOrder(f.folders) && fresh(fm.Repr - old(fm.Repr))
      ensures f.kind == Some("list") ==> Grew(Selectable(f.folders))
      ensures f.kind != Some("list") ==> resolved == old(resolved) && unchanged(old(fm.Repr))
      ensures f.kind == Some("fetch") ==> mm.Updated(f.sync, Mails(f.messages, now), now)
      ensures f.kind != Some("fetch") ==> unchanged(mm) && unchanged(old(mm.Parts))
    {
      if f.auth == Some("ok") {
        socket.Send(ListRequest.action, ListRequest.args);
      }
      Dispatch(f, now);
    }

    /** The `type` tests of handleMessage: `type` is either `list` or `fetch`, never both. */
    method Dispatch(f: Inbound, now: nat)
      requires Valid()
      modifies this`resolved, fm.Repr, mm, mm.Parts
      ensures Valid()
      ensures f.kind == Some("list") ==> ResolvedInOrder(f.folders) && fresh(fm.Repr - old(fm.Repr))
      ensures f.kind == Some("list") ==> Grew(Selectable(f.folders))
      ensures f.kind != Some("list") ==> resolved == old(resolved) && unchanged(old(fm.Repr))
      ensures f.kind == Some("fetch") ==> mm.Updated(f.sync, Mails(f.messages, now), now)
      ensures f.kind != Some("fetch") ==> unchanged(mm) && unchanged(old(mm.Parts))
    {
      if f.kind == Some("list") {
        ResolveAll(f.folders);
      } else if f.kind == Some("fetch") {
        Deliver(f.sync, f.messages, now);
      }
    }

    /** The `fetch` branch: the messages of the reply to request `sync` go to the message cache. */
    method Deliver(sync: int, messages: seq<ImapMessage>, now: nat)
      requires Valid()
      modifies mm, mm.Parts
      ensures Valid() && mm.Updated(sync, Mails(messages, now), now)
    {
      var ms := ToMailMessages(messages, now);
      mm.UpdateMessage(sync, ms, now);
    }

    /** The `list` branch: filter, sort by depth, resolve one entry at a time. */
    method ResolveAll(fs: seq<ImapFolder>)
      requires Valid()
      modifies this`resolved, fm.Repr
      ensures Valid() && fresh(fm.Repr - old(fm.Repr))
      ensures ResolvedInOrder(fs) && Grew(Selectable(fs))
    {
      var a := SortSelectable(fs);
      ghost var n := |resolved|;
      ResolveEach(a);
      assert resolved[..n] == old(resolved);
      assert resolved[n..] == a[..];
      assert |a[..]| == |Selectable(fs)| by {
        assert |multiset(a[..])| == |multiset(Selectable(fs))|;
      }
      GrownReordered(old(fm.rootPaths.Keys), old(fm.nodes), fm.rootPaths.Keys, fm.nodes, a[..], Selectable(fs));
    }

    /** Calls fm.resolveFolder on each entry of `a`, first to last. */
    method ResolveEach(a: array<ImapFolder>)
      requires fm.Valid() && a !in fm.Repr && this !in fm.Repr
      modifies this`resolved, fm.Repr
      ensures fm.Valid() && fresh(fm.Repr - old(fm.Repr))
      ensures resolved == old(resolved) + a[..] && Grew(a[..])
    {
      ghost var k0, n0 := fm.rootPaths.Keys, fm.nodes;
      for i := 0 to a.Length
        invariant fm.Valid() && fresh(fm.Repr - old(fm.Repr)) && a !in fm.Repr && this !in fm.Repr
        invariant resolved == old(resolved) + a[..i]
        invariant Grown(k0, n0, fm.rootPaths.Keys, fm.nodes, a[..i])
      {
        ghost var keys, mid := fm.rootPaths.Keys, fm.nodes;
        Resolve(a[i]);
        assert a[..i + 1] == a[..i] + [a[i]];
        GrownTrans(k0, n0, keys, mid, fm.rootPaths.Keys, fm.nodes, a[..i], [a[i]]);
      }
      assert a[..a.Length] == a[..];
    }

    /** `fm.resolveFolder(x)` as the dispatcher sees it: the tree changes as `Filed` states, gains only new objects, and the call is logged. */
    method Resolve(x: ImapFolder)
      requires fm.Valid() && this !in fm.Repr
      modifies this`resolved, fm.Repr
      ensures fm.Valid() && fresh(fm.Repr - old(fm.Repr))
      ensures resolved == old(resolved) + [x]
      ensures fm.Filed(x) && Grew([x])
    {
      RootNamesAppend([], [x]);
      fm.ResolveFolder(x);
      resolved := resolved + [x];
    }
  }
}
