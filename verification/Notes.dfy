/** The vault's notes and the commitment tree they are proved against (src/notes.rs).

    The witnessing tree is external; here it is the sequence of commitments
    appended so far (those folded into the starting frontier included), the
    positions marked for retention, and the stack of checkpoints. A nullifier is
    a function of a note, fixed by the vault's viewing key. */
module Notes {
  import opened Prelude
  import opened Ordered
  import opened Wire

  datatype NoteVersion = V2 | V3

  datatype Note = Note(recipient: nat, value: u64, rho: Hash, rseed: Hash, version: NoteVersion)

  /** `note.nullifier(fvk)`, for the one viewing key of a vault. */
  type NullifierOf = Note -> Hash

  datatype HeldNote = HeldNote(note: Note, position: nat, height: nat, txid: Hash) {
    function Value(): u64 { note.value }
  }

  datatype NoteError = Insufficient(held: nat, needed: nat)

  // ------------------------------------------------------------ the tree

  const CHECKPOINT_DEPTH: nat := 100

  /** A tree of depth 32 has this many leaves and takes no more. */
  const CAPACITY: nat := 0x1_0000_0000

  datatype Checkpoint = Checkpoint(id: nat, size: nat)

  datatype Tree = Tree(leaves: seq<Hash>, marked: set<nat>, checkpoints: seq<Checkpoint>)

  function TreeAppend(t: Tree, leaf: Hash): Option<Tree> {
    if |t.leaves| < CAPACITY then Some(t.(leaves := t.leaves + [leaf])) else None
  }

  /** Mark the leaf appended last. */
  function TreeMark(t: Tree): (Tree, Option<nat>) {
    if t.leaves == [] then (t, None)
    else (t.(marked := t.marked + {|t.leaves| - 1}), Some(|t.leaves| - 1))
  }

  /** The tree takes a checkpoint only under an id above the last one's. */
  predicate TakesCheckpoint(t: Tree, id: nat) {
    t.checkpoints == [] || t.checkpoints[|t.checkpoints| - 1].id < id
  }

  /** Push a checkpoint at the current size, dropping the oldest past the depth;
      an id the tree does not take changes nothing. */
  function TreeCheckpoint(t: Tree, id: nat): Tree {
    var cs := t.checkpoints + [Checkpoint(id, |t.leaves|)];
    if TakesCheckpoint(t, id) then t.(checkpoints := if |cs| > CHECKPOINT_DEPTH then cs[1..] else cs) else t
  }

  /** Go back to the last checkpoint and remove it. */
  function TreeRewind(t: Tree): Option<Tree> {
    if t.checkpoints == [] then None else
      var n := t.checkpoints[|t.checkpoints| - 1].size;
      Some(Tree(if n <= |t.leaves| then t.leaves[..n] else t.leaves,
                (set p | p in t.marked && p < n),
                t.checkpoints[..|t.checkpoints| - 1]))
  }

  // ------------------------------------------------------------ the store, as a value

  datatype Store = Store(
    tree: Tree,
    held: map<nat, HeldNote>,
    inFlight: map<nat, HeldNote>,
    spent: set<Hash>,
    appended: nat,
    syncedTo: Option<nat>)

  function EmptyStore(): Store {
    Store(Tree([], {}, []), map[], map[], {}, 0, None)
  }

  /** One that stands at a height and holds nothing. */
  function EmptyAt(height: nat): Store {
    EmptyStore().(syncedTo := Some(height))
  }

  /** `append`: the position of the new leaf, when it was taken and is ours. */
  function AppendSpec(s: Store, cmx: Hash, ours: bool): (Store, Option<nat>) {
    match TreeAppend(s.tree, cmx)
    case None => (s, None)
    case Some(t) =>
      if ours then
        var (t', pos) := TreeMark(t);
        (s.(tree := t', appended := s.appended + 1), pos)
      else
        (s.(tree := t, appended := s.appended + 1), None)
  }

  function HoldSpec(s: Store, note: Note, position: nat, height: nat, txid: Hash): Store {
    s.(held := s.held[position := HeldNote(note, position, height, txid)])
  }

  /** Block heights are 32-bit numbers. */
  const HEIGHTS: nat := 0x1_0000_0000

  /** The checkpoint id of a block: its height, cut to 32 bits. */
  function CheckpointId(height: nat): nat {
    height % HEIGHTS
  }

  function BeginSpec(s: Store, height: nat): Store {
    s.(tree := TreeCheckpoint(s.tree, CheckpointId(height)))
  }

  function FinishSpec(s: Store, height: nat): Store {
    s.(syncedTo := Some(height))
  }

  /** `rewind`: undo the most recent block; held notes past the tree's end go with it. */
  function RewindSpec(s: Store): (Store, bool) {
    match TreeRewind(s.tree)
    case None => (s, false)
    case Some(t) =>
      if t.leaves == [] then (s.(tree := t, held := map[], appended := 0), true)
      else
        var last := |t.leaves| - 1;
        (s.(tree := t, held := map p | p in s.held && p <= last :: s.held[p], appended := last + 1), true)
  }

  /** The first note, in position order, with this nullifier. */
  function Find(m: map<nat, HeldNote>, nf: Hash, key: NullifierOf): (r: Option<nat>)
    ensures r.None? <==> forall p :: p in m ==> key(m[p].note) != nf
    ensures r.Some? ==> r.value in m && key(m[r.value].note) == nf
  {
    var matching := set p | p in m && key(m[p].note) == nf;
    if matching == {} then
      assert forall p :: p in m ==> p !in matching;
      None
    else Some(Min(matching))
  }

  function Without(m: map<nat, HeldNote>, p: nat): map<nat, HeldNote> {
    map q | q in m && q != p :: m[q]
  }

  /** The note found under `p` is dropped by its own position. */
  function Drop(m: map<nat, HeldNote>, p: nat): (map<nat, HeldNote>, Option<HeldNote>)
    requires p in m
  {
    var q := m[p].position;
    if q in m then (Without(m, q), Some(m[q])) else (m, None)
  }

  /** `spend_nullifier`: the chain shows a nullifier. A note in flight is found
      before a held one; a note dropped is forgotten and its nullifier kept. */
  function NullifierSpec(s: Store, nf: Hash, key: NullifierOf): (Store, Option<HeldNote>) {
    match Find(s.inFlight, nf, key)
    case Some(p) =>
      var (rest, gone) := Drop(s.inFlight, p);
      (s.(inFlight := rest, spent := if gone.Some? then s.spent + {nf} else s.spent), gone)
    case None =>
      match Find(s.held, nf, key)
      case None => (s, None)
      case Some(p) =>
        var (rest, gone) := Drop(s.held, p);
        (s.(held := rest, spent := if gone.Some? then s.spent + {nf} else s.spent), gone)
  }

  /** Every note is filed under its own position. */
  predicate Keyed(m: map<nat, HeldNote>) {
    forall p :: p in m ==> m[p].position == p
  }

  /** `holds_nullifier`: held, in flight, or already seen spent. */
  predicate Recognises(s: Store, nf: Hash, key: NullifierOf) {
    nf in s.spent || Find(s.held, nf, key).Some? || Find(s.inFlight, nf, key).Some?
  }

  /** `spend`: we broadcast a transaction spending this note. */
  function SpendSpec(s: Store, position: nat): (Store, Option<HeldNote>) {
    if position in s.held then
      (s.(held := Without(s.held, position), inFlight := s.inFlight[position := s.held[position]]),
       Some(s.held[position]))
    else (s, None)
  }

  /** What every operation keeps: the counter is the tree's size, checkpoints
      lie within it and grow, and every note is filed under a position the
      tree has and retains. */
  ghost predicate Valid(s: Store) {
    && s.appended == |s.tree.leaves| <= CAPACITY
    && |s.tree.checkpoints| <= CHECKPOINT_DEPTH
    && (forall c :: c in s.tree.checkpoints ==> c.size <= |s.tree.leaves|)
    && (forall i, j :: 0 <= i < j < |s.tree.checkpoints| ==> s.tree.checkpoints[i].size <= s.tree.checkpoints[j].size)
    && (forall p :: p in s.tree.marked ==> p < |s.tree.leaves|)
    && (forall p :: p in s.held ==> p in s.tree.marked)
    && Keyed(s.held) && Keyed(s.inFlight)
  }

  lemma AppendKeepsValid(s: Store, cmx: Hash, ours: bool, note: Note, height: nat, txid: Hash)
    requires Valid(s)
    ensures var (s', pos) := AppendSpec(s, cmx, ours);
            Valid(s') && (pos.Some? ==> Valid(HoldSpec(s', note, pos.value, height, txid)))
  {
  }

  /** A checkpoint at the tree's size under the height cut to 32 bits, taken only above
      the last one's; the oldest of a hundred goes for it. Nothing else changes. */
  lemma BeginTakes(s: Store, height: nat)
    ensures var after, cs, id := BeginSpec(s, height), s.tree.checkpoints, height % 0x1_0000_0000;
            && after == s.(tree := s.tree.(checkpoints := after.tree.checkpoints))
            && after.tree.checkpoints
               == if cs != [] && id <= cs[|cs| - 1].id then cs
                  else (if |cs| >= 100 then cs[1..] else cs) + [Checkpoint(id, |s.tree.leaves|)]
  {
  }

  lemma BeginKeepsValid(s: Store, height: nat)
    requires Valid(s)
    ensures Valid(BeginSpec(s, height))
  {
    var cs := s.tree.checkpoints + [Checkpoint(CheckpointId(height), |s.tree.leaves|)];
    forall i | 0 <= i < |cs| ensures cs[i].size <= |s.tree.leaves| {
      if i < |s.tree.checkpoints| {
        assert cs[i] in s.tree.checkpoints;
      }
    }
  }

  lemma RewindKeepsValid(s: Store)
    requires Valid(s)
    ensures Valid(RewindSpec(s).0)
  {
    var cs := s.tree.checkpoints;
    if cs != [] {
      assert cs[|cs| - 1] in cs;
      forall c | c in cs[..|cs| - 1] ensures c.size <= cs[|cs| - 1].size {
        var i :| 0 <= i < |cs| - 1 && cs[i] == c;
      }
    }
  }

  lemma NullifierKeepsValid(s: Store, nf: Hash, key: NullifierOf)
    requires Valid(s)
    ensures Valid(NullifierSpec(s, nf, key).0)
  {
    var s' := NullifierSpec(s, nf, key).0;
    assert s'.tree == s.tree && s'.appended == s.appended;
    assert forall p :: p in s'.held ==> p in s.held && s'.held[p] == s.held[p];
    assert forall p :: p in s'.inFlight ==> p in s.inFlight && s'.inFlight[p] == s.inFlight[p];
  }

  lemma SpendKeepsValid(s: Store, position: nat)
    requires Valid(s)
    ensures Valid(SpendSpec(s, position).0)
  {
    var s' := SpendSpec(s, position).0;
    assert s'.tree == s.tree && s'.appended == s.appended;
    assert forall p :: p in s'.held ==> p in s.held && s'.held[p] == s.held[p];
  }

  // ------------------------------------------------------------ choosing notes

  /** What the first `k` of `notes` are worth. */
  function Total(notes: seq<HeldNote>, k: nat): nat
    requires k <= |notes|
  {
    if k == 0 then 0 else Total(notes, k - 1) + notes[k - 1].Value()
  }

  function SumOf(notes: seq<HeldNote>): nat {
    Total(notes, |notes|)
  }

  lemma {:induction false} TotalOfPrefix(notes: seq<HeldNote>, n: nat, k: nat)
    requires k <= n <= |notes|
    ensures Total(notes[..n], k) == Total(notes, k)
  {
    if k > 0 {
      TotalOfPrefix(notes, n, k - 1);
    }
  }

  /** Largest first; among equals the earlier position. */
  predicate Before(a: HeldNote, b: HeldNote) {
    a.Value() > b.Value() || (a.Value() == b.Value() && a.position <= b.position)
  }

  function Insert(n: HeldNote, notes: seq<HeldNote>): (r: seq<HeldNote>)
    ensures |r| == |notes| + 1
  {
    if notes == [] || Before(n, notes[0]) then [n] + notes
    else [notes[0]] + Insert(n, notes[1..])
  }

  lemma {:induction false} InsertHolds(n: HeldNote, notes: seq<HeldNote>)
    ensures forall x :: x in Insert(n, notes) <==> x == n || x in notes
  {
    if notes != [] && !Before(n, notes[0]) {
      InsertHolds(n, notes[1..]);
    }
  }

  /** `held.values()` sorted by `Before`. */
  function Sorted(ps: seq<nat>, held: map<nat, HeldNote>): (r: seq<HeldNote>)
    requires forall p :: p in ps ==> p in held
    ensures |r| == |ps|
  {
    if ps == [] then [] else
      Insert(held[ps[0]], Sorted(ps[1..], held))
  }

  lemma {:induction false} SortedHolds(ps: seq<nat>, held: map<nat, HeldNote>)
    requires forall p :: p in ps ==> p in held
    ensures forall x :: x in Sorted(ps, held) <==> exists p :: p in ps && x == held[p]
  {
    if ps != [] {
      SortedHolds(ps[1..], held);
      InsertHolds(held[ps[0]], Sorted(ps[1..], held));
      assert forall p :: p in ps <==> p == ps[0] || p in ps[1..];
    }
  }

  function Candidates(held: map<nat, HeldNote>): seq<HeldNote> {
    Sorted(Ascending(held.Keys), held)
  }

  /** The length, from `k` on, of the shortest prefix of `notes` worth `amount`. */
  function CoverFrom(notes: seq<HeldNote>, amount: nat, k: nat): (r: Option<nat>)
    requires k <= |notes|
    ensures r.Some? ==> k <= r.value <= |notes| && Total(notes, r.value) >= amount
    ensures r.Some? && r.value > k ==> Total(notes, r.value - 1) < amount
    ensures r.None? ==> Total(notes, |notes|) < amount
    decreases |notes| - k
  {
    if Total(notes, k) >= amount then Some(k)
    else if k == |notes| then None
    else CoverFrom(notes, amount, k + 1)
  }

  /** The length of the shortest prefix of `notes` worth `amount`. */
  function Cover(notes: seq<HeldNote>, amount: nat): (r: Option<nat>)
    ensures r.Some? ==> r.value <= |notes| && Total(notes, r.value) >= amount
    ensures r.Some? && r.value > 0 ==> Total(notes, r.value - 1) < amount
    ensures r.None? ==> Total(notes, |notes|) < amount
  {
    CoverFrom(notes, amount, 0)
  }

  /** The notes `select` chooses, or nothing when all together fall short. */
  function Selection(held: map<nat, HeldNote>, amount: nat): Option<seq<HeldNote>> {
    var notes := Candidates(held);
    match Cover(notes, amount)
    case None => None
    case Some(k) => Some(notes[..k])
  }

  // ---- what the selection means

  /** The value of the held notes at the positions in `ps`. */
  ghost function Worth(held: map<nat, HeldNote>, ps: set<nat>): nat
    requires ps <= held.Keys
  {
    if ps == {} then 0 else
      var p := Min(ps);
      held[p].Value() + Worth(held, ps - {p})
  }

  lemma {:induction false} WorthRemove(held: map<nat, HeldNote>, ps: set<nat>, p: nat)
    requires ps <= held.Keys && p in ps
    ensures Worth(held, ps) == held[p].Value() + Worth(held, ps - {p})
    decreases ps
  {
    var m := Min(ps);
    if p != m {
      WorthRemove(held, ps - {m}, p);
      assert m in ps - {p} && Min(ps - {p}) in ps;
      assert ps - {m} - {p} == ps - {p} - {m};
    }
  }

  ghost predicate IsSorted(notes: seq<HeldNote>) {
    forall i, j :: 0 <= i < j < |notes| ==> notes[i].Value() >= notes[j].Value()
  }

  ghost predicate Distinct(notes: seq<HeldNote>) {
    forall i, j :: 0 <= i < j < |notes| ==> notes[i].position != notes[j].position
  }

  lemma ConsKeeps(n: HeldNote, notes: seq<HeldNote>)
    requires IsSorted(notes) && Distinct(notes)
    requires forall x :: x in notes ==> n.Value() >= x.Value() && n.position != x.position
    ensures IsSorted([n] + notes) && Distinct([n] + notes)
  {
    var r := [n] + notes;
    forall i, j | 0 <= i < j < |r| ensures r[i].Value() >= r[j].Value() && r[i].position != r[j].position {
      assert r[j] == notes[j - 1] && r[j] in notes;
      assert i > 0 ==> r[i] == notes[i - 1];
    }
  }

  lemma {:induction false} InsertKeeps(n: HeldNote, notes: seq<HeldNote>)
    requires IsSorted(notes) && Distinct(notes) && forall x :: x in notes ==> x.position != n.position
    ensures IsSorted(Insert(n, notes)) && Distinct(Insert(n, notes))
  {
    if notes == [] || Before(n, notes[0]) {
      ConsKeeps(n, notes);
    } else {
      HeadIsLargest(notes);
      InsertKeeps(n, notes[1..]);
      InsertHolds(n, notes[1..]);
      ConsKeeps(notes[0], Insert(n, notes[1..]));
    }
  }

  lemma HeadIsLargest(notes: seq<HeldNote>)
    requires notes != [] && IsSorted(notes) && Distinct(notes)
    ensures IsSorted(notes[1..]) && Distinct(notes[1..]) && notes[0] in notes
    ensures forall x :: x in notes[1..] ==>
              notes[0].Value() >= x.Value() && notes[0].position != x.position && x in notes
  {
  }

  lemma {:induction false} SortedIsSorted(ps: seq<nat>, held: map<nat, HeldNote>)
    requires Increasing(ps) && forall p :: p in ps ==> p in held && held[p].position == p
    ensures IsSorted(Sorted(ps, held)) && Distinct(Sorted(ps, held))
  {
    if ps != [] {
      SortedIsSorted(ps[1..], held);
      SortedHolds(ps[1..], held);
      InsertKeeps(held[ps[0]], Sorted(ps[1..], held));
    }
  }

  ghost function Positions(notes: seq<HeldNote>): set<nat> {
    set n | n in notes :: n.position
  }

  /** Notes read from the store, no two from one place. */
  ghost predicate FromStore(notes: seq<HeldNote>, held: map<nat, HeldNote>) {
    Distinct(notes) && forall n :: n in notes ==> n.position in held && held[n.position] == n
  }

  lemma DropLast(notes: seq<HeldNote>, held: map<nat, HeldNote>)
    requires notes != [] && FromStore(notes, held)
    ensures var front, x := notes[..|notes| - 1], notes[|notes| - 1];
            && FromStore(front, held) && x.position in held && held[x.position] == x
            && Positions(front) == Positions(notes) - {x.position} && x.position in Positions(notes)
  {
    var front, x := notes[..|notes| - 1], notes[|notes| - 1];
    assert x in notes;
    forall n | n in front ensures n in notes && n.position != x.position {
    }
    forall p | p in Positions(notes) && p != x.position ensures p in Positions(front) {
      var n :| n in notes && n.position == p;
      assert n in front;
    }
  }

  /** No k notes are worth more than the k first candidates. */
  lemma {:induction false} LargestFirstIsBest(notes: seq<HeldNote>, held: map<nat, HeldNote>, c: set<nat>)
    requires IsSorted(notes) && FromStore(notes, held) && c <= held.Keys && c <= Positions(notes)
    ensures |c| <= |notes| && Worth(held, c) <= Total(notes, |c|)
    decreases |notes|
  {
    if notes == [] {
      assert c == {};
    } else {
      var n := |notes| - 1;
      OneFewer(notes, held, c);
      LargestFirstIsBest(notes[..n], held, c - {notes[n].position});
      BestWithOneMore(notes, held, c);
    }
  }

  lemma OneFewer(notes: seq<HeldNote>, held: map<nat, HeldNote>, c: set<nat>)
    requires notes != [] && IsSorted(notes) && FromStore(notes, held) && c <= held.Keys && c <= Positions(notes)
    ensures var n := |notes| - 1; var c' := c - {notes[n].position};
            && IsSorted(notes[..n]) && FromStore(notes[..n], held) && c' <= held.Keys && c' <= Positions(notes[..n])
            && notes[n].position in held && held[notes[n].position] == notes[n]
  {
    DropLast(notes, held);
  }

  lemma BestWithOneMore(notes: seq<HeldNote>, held: map<nat, HeldNote>, c: set<nat>)
    requires notes != [] && IsSorted(notes) && c <= held.Keys
    requires var n := |notes| - 1; var c' := c - {notes[n].position};
             && notes[n].position in held && held[notes[n].position] == notes[n]
             && |c'| <= n && Worth(held, c') <= Total(notes[..n], |c'|)
    ensures |c| <= |notes| && Worth(held, c) <= Total(notes, |c|)
  {
    var n := |notes| - 1;
    var p := notes[n].position;
    TotalOfPrefix(notes, n, |c - {p}|);
    if p in c {
      WorthRemove(held, c, p);
      AddSmallest(notes, |c - {p}|, Worth(held, c - {p}));
    } else {
      assert c - {p} == c;
    }
  }

  lemma AddSmallest(notes: seq<HeldNote>, k: nat, w: nat)
    requires k < |notes| && IsSorted(notes) && w <= Total(notes, k)
    ensures w + notes[|notes| - 1].Value() <= Total(notes, k + 1)
  {
    SortedAt(notes, k, |notes| - 1);
  }

  lemma SortedAt(notes: seq<HeldNote>, i: nat, j: nat)
    requires IsSorted(notes) && i <= j < |notes|
    ensures notes[i].Value() >= notes[j].Value()
  {
  }

  lemma {:induction false} SumIsWorth(notes: seq<HeldNote>, held: map<nat, HeldNote>)
    requires FromStore(notes, held) && Positions(notes) <= held.Keys
    ensures SumOf(notes) == Worth(held, Positions(notes))
    decreases |notes|
  {
    if notes != [] {
      var n := |notes| - 1;
      DropLast(notes, held);
      SumIsWorth(notes[..n], held);
      TotalOfPrefix(notes, n, n);
      WorthRemove(held, Positions(notes), notes[n].position);
    }
  }

  lemma CandidatesAreTheHeldNotes(held: map<nat, HeldNote>)
    requires Keyed(held)
    ensures var notes := Candidates(held);
            && IsSorted(notes) && FromStore(notes, held)
            && Positions(notes) == held.Keys && |notes| == |held|
            && SumOf(notes) == Worth(held, held.Keys)
  {
    var ps := Ascending(held.Keys);
    var notes := Candidates(held);
    SortedIsSorted(ps, held);
    SortedHolds(ps, held);
    assert |ps| == |held.Keys|;
    forall p | p in held ensures p in Positions(notes) {
      assert p in ps && held[p] in notes;
    }
    SumIsWorth(notes, held);
  }

  /** Of two notes the one worth more comes first, of equals the earlier one. */
  ghost predicate InTurn(notes: seq<HeldNote>) {
    forall i, j :: 0 <= i < j < |notes| ==>
      || notes[i].note.value > notes[j].note.value
      || (notes[i].note.value == notes[j].note.value && notes[i].position < notes[j].position)
  }

  lemma {:induction false} InsertInTurn(n: HeldNote, notes: seq<HeldNote>)
    requires InTurn(notes) && forall x :: x in notes ==> x.position != n.position
    ensures InTurn(Insert(n, notes))
  {
    if notes == [] || Before(n, notes[0]) {
      var r := [n] + notes;
      forall j | 0 < j < |r| ensures r[j] == notes[j - 1] && r[j] in notes {
      }
    } else {
      InsertInTurn(n, notes[1..]);
      InsertHolds(n, notes[1..]);
      HeadInTurn(notes[0], Insert(n, notes[1..]), notes, n);
    }
  }

  lemma HeadInTurn(first: HeldNote, rest: seq<HeldNote>, notes: seq<HeldNote>, n: HeldNote)
    requires InTurn(notes) && InTurn(rest) && notes != [] && first == notes[0] && n.position != first.position
    requires !Before(n, first) && forall x :: x in rest ==> x == n || x in notes[1..]
    ensures InTurn([first] + rest)
  {
    var r := [first] + rest;
    forall j | 0 < j < |r|
      ensures first.note.value > r[j].note.value
           || (first.note.value == r[j].note.value && first.position < r[j].position)
    {
      assert r[j] in rest;
      if r[j] != n {
        var i :| 0 <= i < |notes[1..]| && notes[1..][i] == r[j];
        assert notes[i + 1] == r[j];
      }
    }
    forall i, j | 0 < i < j < |r| ensures r[i] == rest[i - 1] && r[j] == rest[j - 1] {
    }
  }

  lemma {:induction false} SortedInTurn(ps: seq<nat>, held: map<nat, HeldNote>)
    requires Increasing(ps) && forall p :: p in ps ==> p in held && held[p].position == p
    ensures InTurn(Sorted(ps, held))
  {
    if ps != [] {
      SortedInTurn(ps[1..], held);
      SortedHolds(ps[1..], held);
      InsertInTurn(held[ps[0]], Sorted(ps[1..], held));
    }
  }

  /** A selection is the first of the held notes by value, the earlier of equals first. */
  lemma SelectionInTurn(held: map<nat, HeldNote>, amount: nat)
    requires Keyed(held) && Selection(held, amount).Some?
    ensures var chosen := Selection(held, amount).value;
            && InTurn(chosen) && FromStore(chosen, held)
            && forall p, i :: p in held && p !in Positions(chosen) && 0 <= i < |chosen| ==>
                 || chosen[i].note.value > held[p].note.value
                 || (chosen[i].note.value == held[p].note.value && chosen[i].position < p)
  {
    var notes, chosen := Candidates(held), Selection(held, amount).value;
    CandidatesAreTheHeldNotes(held);
    SortedInTurn(Ascending(held.Keys), held);
    var k := Cover(notes, amount).value;
    assert chosen == notes[..k];
    FirstInTurn(notes, k, held);
  }

  lemma FirstInTurn(notes: seq<HeldNote>, k: nat, held: map<nat, HeldNote>)
    requires k <= |notes| && InTurn(notes) && FromStore(notes, held) && Positions(notes) == held.Keys
    ensures InTurn(notes[..k]) && FromStore(notes[..k], held)
    ensures forall p, i :: p in held && p !in Positions(notes[..k]) && 0 <= i < k ==>
              || notes[..k][i].note.value > held[p].note.value
              || (notes[..k][i].note.value == held[p].note.value && notes[..k][i].position < p)
  {
    var chosen := notes[..k];
    assert forall i :: 0 <= i < k ==> chosen[i] == notes[i];
    forall p, i | p in held && p !in Positions(chosen) && 0 <= i < k
      ensures chosen[i].note.value > held[p].note.value
           || (chosen[i].note.value == held[p].note.value && chosen[i].position < p)
    {
      var j := PlaceOf(notes, p);
      NotAmongFirst(notes, k, p, j);
      assert held[p] == notes[j];
    }
  }

  lemma NotAmongFirst(notes: seq<HeldNote>, k: nat, p: nat, j: nat)
    requires k <= |notes| && j < |notes| && notes[j].position == p && p !in Positions(notes[..k])
    ensures j >= k
  {
    forall i | 0 <= i < k ensures notes[i].position in Positions(notes[..k]) {
      assert notes[..k][i] == notes[i];
    }
  }

  lemma PlaceOf(notes: seq<HeldNote>, p: nat) returns (j: nat)
    requires p in Positions(notes)
    ensures j < |notes| && notes[j].position == p
  {
    j :| 0 <= j < |notes| && notes[j].position == p;
  }

  lemma {:induction false} TotalMonotone(notes: seq<HeldNote>, j: nat, k: nat)
    requires j <= k <= |notes|
    ensures Total(notes, j) <= Total(notes, k)
  {
    if j < k {
      TotalMonotone(notes, j, k - 1);
    }
  }

  /** `CoverFrom` is the only prefix that covers and would not without its last note. */
  lemma CoverIs(notes: seq<HeldNote>, amount: nat, k: nat)
    requires k <= |notes| && (k > 0 ==> Total(notes, k - 1) < amount)
    ensures Total(notes, k) >= amount ==> Cover(notes, amount) == Some(k)
    ensures Total(notes, |notes|) < amount ==> Cover(notes, amount) == None
  {
    var r := Cover(notes, amount);
    TotalMonotone(notes, k, |notes|);
    if r.Some? {
      TotalMonotone(notes, r.value, |notes|);
      if r.value < k {
        TotalMonotone(notes, r.value, k - 1);
      } else if r.value > k {
        TotalMonotone(notes, k, r.value - 1);
      }
    }
  }

  /** Where the scan stops is the selection, or everything held was not enough. */
  lemma ScanEnds(held: map<nat, HeldNote>, amount: nat, i: nat)
    requires Keyed(held)
    requires i <= |Candidates(held)| && (i > 0 ==> Total(Candidates(held), i - 1) < amount)
    ensures Total(Candidates(held), i) >= amount ==> Selection(held, amount) == Some(Candidates(held)[..i])
    ensures i == |Candidates(held)| && Total(Candidates(held), i) < amount ==>
              Selection(held, amount) == None && Total(Candidates(held), i) == Worth(held, held.Keys)
  {
    CoverIs(Candidates(held), amount, i);
    CandidatesAreTheHeldNotes(held);
  }

  /** `select` covers the amount with notes of the store, would not cover it
      without its last note, and fails exactly when everything held falls short. */
  lemma SelectionCovers(held: map<nat, HeldNote>, amount: nat)
    requires Keyed(held)
    ensures Selection(held, amount).None? <==> Worth(held, held.Keys) < amount
    ensures Selection(held, amount).Some? ==>
              var chosen := Selection(held, amount).value;
              && FromStore(chosen, held) && SumOf(chosen) >= amount
              && (chosen != [] ==> Total(chosen, |chosen| - 1) < amount)
  {
    CandidatesAreTheHeldNotes(held);
    PrefixCovers(Candidates(held), held, amount, Selection(held, amount));
  }

  lemma PrefixCovers(notes: seq<HeldNote>, held: map<nat, HeldNote>, amount: nat, r: Option<seq<HeldNote>>)
    requires FromStore(notes, held)
    requires r == match Cover(notes, amount) case None => None case Some(k) => Some(notes[..k])
    ensures r.None? <==> SumOf(notes) < amount
    ensures r.Some? ==>
              && FromStore(r.value, held) && SumOf(r.value) >= amount
              && (r.value != [] ==> Total(r.value, |r.value| - 1) < amount)
  {
    CoverIsShortest(notes, held, amount);
  }

  lemma CoverIsShortest(notes: seq<HeldNote>, held: map<nat, HeldNote>, amount: nat)
    requires FromStore(notes, held)
    ensures var r := Cover(notes, amount);
            && (r.None? <==> SumOf(notes) < amount)
            && (r.Some? ==>
                  && FromStore(notes[..r.value], held) && SumOf(notes[..r.value]) >= amount
                  && (r.value > 0 ==> Total(notes[..r.value], r.value - 1) < amount))
  {
    var r := Cover(notes, amount);
    if r.Some? {
      var k := r.value;
      TotalMonotone(notes, k, |notes|);
      TotalOfPrefix(notes, k, k);
      if k > 0 {
        TotalOfPrefix(notes, k, k - 1);
      }
    }
  }

  /** No set of held notes that covers the amount has fewer notes than `select` chooses. */
  lemma SelectionIsFewest(held: map<nat, HeldNote>, amount: nat, c: set<nat>)
    requires Keyed(held)
    requires c <= held.Keys && Worth(held, c) >= amount
    ensures Selection(held, amount).Some? && |Selection(held, amount).value| <= |c|
  {
    var notes := Candidates(held);
    CandidatesAreTheHeldNotes(held);
    LargestFirstIsBest(notes, held, c);
    CoverAtMost(notes, amount, |c|);
  }

  lemma CoverAtMost(notes: seq<HeldNote>, amount: nat, n: nat)
    requires n <= |notes| && Total(notes, n) >= amount
    ensures Cover(notes, amount).Some? && Cover(notes, amount).value <= n
  {
    TotalMonotone(notes, n, |notes|);
    var k := Cover(notes, amount).value;
    if k > n {
      TotalMonotone(notes, n, k - 1);
    }
  }

  /** Needing more only ever adds notes at the end. */
  lemma SelectionGrowsByExtension(held: map<nat, HeldNote>, amount: nat, more: nat)
    requires amount <= more && Selection(held, more).Some?
    ensures Selection(held, amount).Some? && Selection(held, amount).value <= Selection(held, more).value
  {
    CoverAtMost(Candidates(held), amount, Cover(Candidates(held), more).value);
  }

  // ------------------------------------------------------------ the store, as an object

  class NoteStore {
    var tree: Tree
    var held: map<nat, HeldNote>
    var inFlight: map<nat, HeldNote>
    var spent: set<Hash>
    var appended: nat
    var syncedTo: Option<nat>

    ghost function Model(): Store
      reads this
    {
      Store(tree, held, inFlight, spent, appended, syncedTo)
    }

    constructor ()
      ensures Model() == EmptyStore()
    {
      tree := Tree([], {}, []);
      held, inFlight, spent := map[], map[], {};
      appended, syncedTo := 0, None;
    }

    method FinishBlock(height: nat)
      modifies this
      ensures Model() == FinishSpec(old(Model()), height)
    {
      syncedTo := Some(height);
    }

    method BeginBlock(height: nat)
      modifies this
      ensures Model() == BeginSpec(old(Model()), height)
    {
      tree := TreeCheckpoint(tree, CheckpointId(height));
    }

    method Append(cmx: Hash, ours: bool) returns (position: Option<nat>)
      modifies this
      ensures (Model(), position) == AppendSpec(old(Model()), cmx, ours)
    {
      var t := TreeAppend(tree, cmx);
      if t.None? {
        return None;
      }
      tree := t.value;
      appended := appended + 1;
      if !ours {
        return None;
      }
      var (marked, pos) := TreeMark(tree);
      tree := marked;
      position := pos;
    }

    method Hold(note: Note, position: nat, height: nat, txid: Hash)
      modifies this
      ensures Model() == HoldSpec(old(Model()), note, position, height, txid)
    {
      held := held[position := HeldNote(note, position, height, txid)];
    }

    method Rewind() returns (undone: bool)
      modifies this
      ensures (Model(), undone) == RewindSpec(old(Model()))
    {
      var t := TreeRewind(tree);
      if t.None? {
        return false;
      }
      tree := t.value;
      if tree.leaves == [] {
        held := map[];
        appended := 0;
      } else {
        var last := |tree.leaves| - 1;
        held := map p | p in held && p <= last :: held[p];
        appended := last + 1;
      }
      undone := true;
    }

    method SpendNullifier(nf: Hash, key: NullifierOf) returns (gone: Option<HeldNote>)
      modifies this
      ensures (Model(), gone) == NullifierSpec(old(Model()), nf, key)
    {
      var p := Find(inFlight, nf, key);
      if p.Some? {
        var q := inFlight[p.value].position;
        if q !in inFlight {
          return None;
        }
        gone := Some(inFlight[q]);
        inFlight := Without(inFlight, q);
      } else {
        p := Find(held, nf, key);
        if p.None? {
          return None;
        }
        var q := held[p.value].position;
        if q !in held {
          return None;
        }
        gone := Some(held[q]);
        held := Without(held, q);
      }
      spent := spent + {nf};
    }

    method HoldsNullifier(nf: Hash, key: NullifierOf) returns (ours: bool)
      ensures ours == Recognises(Model(), nf, key)
      ensures ours <==> nf in spent || (exists p :: p in held && key(held[p].note) == nf)
                                    || (exists p :: p in inFlight && key(inFlight[p].note) == nf)
    {
      var inHeld := Find(held, nf, key);
      var flying := Find(inFlight, nf, key);
      ours := nf in spent || inHeld.Some? || flying.Some?;
    }

    method Spend(position: nat) returns (h: Option<HeldNote>)
      modifies this
      ensures (Model(), h) == SpendSpec(old(Model()), position)
    {
      if position !in held {
        return None;
      }
      h := Some(held[position]);
      held := Without(held, position);
      inFlight := inFlight[position := h.value];
    }

    /** `select`. */
    method Select(amount: u64) returns (r: Result<seq<HeldNote>, NoteError>)
      requires Keyed(held)
      ensures r == match Selection(held, amount)
                   case Some(chosen) => Ok(chosen)
                   case None => Err(Insufficient(Worth(held, held.Keys), amount))
    {
      var candidates := Candidates(held);
      var count, total := TakeUntil(candidates, amount);
      ScanEnds(held, amount, count);
      if total < amount {
        return Err(Insufficient(total, amount));
      }
      r := Ok(candidates[..count]);
    }
  }

  /** The loop of `select`: notes are taken until the total, which saturates at
      the top of u64, covers the amount. */
  method TakeUntil(candidates: seq<HeldNote>, amount: u64) returns (count: nat, total: nat)
    ensures count <= |candidates| && total == Capped(Total(candidates, count))
    ensures count > 0 ==> Total(candidates, count - 1) < amount
    ensures total >= amount || count == |candidates|
  {
    count, total := 0, 0;
    while count < |candidates|
      invariant 0 <= count <= |candidates| && total == Capped(Total(candidates, count))
      invariant count > 0 ==> Total(candidates, count - 1) < amount
    {
      if total >= amount {
        return;
      }
      assert SatAdd(total, candidates[count].Value()) == Capped(Total(candidates, count + 1));
      total := SatAdd(total, candidates[count].Value());
      count := count + 1;
    }
  }
}
