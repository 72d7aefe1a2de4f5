/** What a rename rotation costs the follower of packages/broker/src/aerial_rescue_broker/event_source.py.

    Files only grow and the path may come to name another file at any time. A turn reads at one moment and looks
    at the path at a later one; what is appended to the old file in between is never read. */
module RotationLoss {
  import opened Options
  import opened LineReader
  import opened RetainedLog

  /** The contents of all files, named by identity, and the one the path names. */
  datatype Disk = Disk(files: map<nat, Bytes>, path: Option<nat>)

  predicate IsDisk(d: Disk) {
    d.path.Some? ==> d.path.value in d.files
  }

  /** Files are kept and only appended to. */
  predicate Grows(a: Disk, b: Disk) {
    IsDisk(b) && forall id :: id in a.files ==> id in b.files && a.files[id] <= b.files[id]
  }

  /** A turn opens and reads with the disk in the first state and looks at the path with it in the second. */
  datatype Moment = Moment(reading: Disk, looking: Disk)

  /** A file the follower has left, and what the file held when it was last read. */
  datatype Left = Left(identity: nat, content: Bytes)

  datatype Reader = Reader(follower: Follower, left: seq<Left>)

  /** The descriptor a turn reads from. */
  function Current(f: Follower, m: Moment): Option<Descriptor> {
    if f.stream.Some? then f.stream
    else if m.reading.path == None then None
    else Some(Descriptor(m.reading.path.value, 0))
  }

  /** The descriptor is of a file and within it. */
  predicate Within(s: Option<Descriptor>, d: Disk) {
    s.Some? ==> s.value.identity in d.files && s.value.position <= |d.files[s.value.identity]|
  }

  function TickOf(f: Follower, m: Moment): Tick
    requires IsDisk(m.reading) && IsDisk(m.looking) && Within(f.stream, m.reading)
  {
    var s := Current(f, m);
    Tick(m.reading.path,
         if s == None then None else Some(m.reading.files[s.value.identity][s.value.position..]),
         if m.looking.path == None then Missing
         else Found(m.looking.path.value, |m.looking.files[m.looking.path.value]|),
         true)
  }

  function ReaderTurn(r: Reader, limit: nat, maximumGapPolls: nat, m: Moment): Reader
    requires IsDisk(m.reading) && IsDisk(m.looking) && Within(r.follower.stream, m.reading)
  {
    var next := TurnOf(r.follower, limit, maximumGapPolls, TickOf(r.follower, m)).follower;
    var s := Current(r.follower, m);
    if s.Some? && next.stream == None
    then Reader(next, r.left + [Left(s.value.identity, m.reading.files[s.value.identity])])
    else Reader(next, r.left)
  }

  function Contents(left: seq<Left>): seq<Bytes> {
    if left == [] then [] else [left[0].content] + Contents(left[1..])
  }

  function ReadOf(s: Option<Descriptor>, d: Disk): Bytes
    requires Within(s, d)
  {
    if s == None then [] else d.files[s.value.identity][..s.value.position]
  }

  /** What was read is all that the files left behind held when they were last read, and then the beginning of
      the current file. */
  ghost predicate Accounts(r: Reader, limit: nat, d: Disk) {
    && Within(r.follower.stream, d) && Conserves(r.follower, limit)
    && r.follower.read == Joined(Contents(r.left)) + ReadOf(r.follower.stream, d)
    && forall i ::
        0 <= i < |r.left| ==> r.left[i].identity in d.files && r.left[i].content <= d.files[r.left[i].identity]
  }

  lemma {:induction false} ContentsMore(left: seq<Left>, one: Left)
    ensures Contents(left + [one]) == Contents(left) + [one.content]
  {
    if left == [] {
      assert [one][1..] == [] && left + [one] == [one];
      assert Contents([]) == [];
    } else {
      ContentsMore(left[1..], one);
      assert (left + [one])[1..] == left[1..] + [one];
    }
  }

  lemma PrefixTwice(a: Bytes, b: Bytes, n: nat)
    requires a <= b && n <= |a|
    ensures a[..n] == b[..n]
  {
  }

  /** Growth disturbs nothing already read. */
  lemma GrowthAccounts(r: Reader, limit: nat, a: Disk, b: Disk)
    requires Accounts(r, limit, a) && Grows(a, b)
    ensures Accounts(r, limit, b)
  {
    if r.follower.stream.Some? {
      var s := r.follower.stream.value;
      PrefixTwice(a.files[s.identity], b.files[s.identity], s.position);
    }
    forall i | 0 <= i < |r.left|
      ensures r.left[i].content <= b.files[r.left[i].identity]
    {
      assert r.left[i].content <= a.files[r.left[i].identity] <= b.files[r.left[i].identity];
    }
  }

  lemma LongerRead(content: Bytes, position: nat, chunk: Bytes)
    requires position <= |content| && chunk <= content[position..]
    ensures content[..position] + chunk == content[..position + |chunk|]
  {
  }

  /** Reading from a descriptor within its file. */
  lemma ReadAccounts(f: Follower, limit: nat, maximumGapPolls: nat, tick: Tick, content: Bytes, before: Bytes)
    requires f.stream.Some? && Conserves(f, limit) && f.stream.value.position <= |content|
    requires tick.readable == Some(content[f.stream.value.position..]) && tick.seekable
    requires f.read == before + content[..f.stream.value.position]
    requires tick.path.Found? && tick.path.identity == f.stream.value.identity ==> tick.path.size >= |content|
    ensures var g := ReadAvailable(f, limit, maximumGapPolls, tick).follower;
      if g.stream == None then
        && f.stream.value.position == |content| && g.read == before + content
        && tick.path.Found? && tick.path.identity != f.stream.value.identity
      else
        && g.stream.value.identity == f.stream.value.identity && g.stream.value.position <= |content|
        && g.read == before + content[..g.stream.value.position]
  {
    var available := content[f.stream.value.position..];
    var chunk := ReadlineAvailable(available, limit - |f.pending|);
    assert chunk <= available;
    if chunk == [] {
      assert available == [];
      assert content[..|content|] == content;
    } else {
      LongerRead(content, f.stream.value.position, chunk);
      assert (before + content[..f.stream.value.position]) + chunk
          == before + (content[..f.stream.value.position] + chunk);
    }
  }

  /** The file being read, as the turn finds it. */
  lemma TurnAccounts(r: Reader, limit: nat, maximumGapPolls: nat, m: Moment)
    requires IsDisk(m.reading) && Accounts(r, limit, m.reading) && Grows(m.reading, m.looking)
    ensures Accounts(ReaderTurn(r, limit, maximumGapPolls, m), limit, m.looking)
  {
    var tick := TickOf(r.follower, m);
    TurnConserves(r.follower, limit, maximumGapPolls, tick);
    var s := Current(r.follower, m);
    if s == None {
      GrowthAccounts(r, limit, m.reading, m.looking);
    } else {
      var f := if r.follower.stream.Some? then r.follower else Opened(r.follower, m.reading.path.value);
      var content := m.reading.files[s.value.identity];
      assert Joined(Contents(r.left)) + content[..s.value.position] == r.follower.read;
      ReadAccounts(f, limit, maximumGapPolls, tick, content, Joined(Contents(r.left)));
      StepAccounts(r, limit, maximumGapPolls, m, f, content);
    }
  }

  lemma StepAccounts(r: Reader, limit: nat, maximumGapPolls: nat, m: Moment, f: Follower, content: Bytes)
    requires IsDisk(m.reading) && Accounts(r, limit, m.reading) && Grows(m.reading, m.looking)
    requires Current(r.follower, m).Some? && content == m.reading.files[Current(r.follower, m).value.identity]
    requires f == if r.follower.stream.Some? then r.follower else Opened(r.follower, m.reading.path.value)
    requires var g := TurnOf(r.follower, limit, maximumGapPolls, TickOf(r.follower, m)).follower;
      && Conserves(g, limit)
      && if g.stream == None then g.read == Joined(Contents(r.left)) + content
         else
           && g.stream.value.identity == f.stream.value.identity && g.stream.value.position <= |content|
           && g.read == Joined(Contents(r.left)) + content[..g.stream.value.position]
    ensures Accounts(ReaderTurn(r, limit, maximumGapPolls, m), limit, m.looking)
  {
    var g := TurnOf(r.follower, limit, maximumGapPolls, TickOf(r.follower, m)).follower;
    if g.stream == None {
      var one := Left(Current(r.follower, m).value.identity, content);
      ContentsMore(r.left, one);
      JoinedOneMore(Contents(r.left), content);
      assert Joined(Contents(r.left + [one])) + [] == Joined(Contents(r.left + [one]));
    }
    var next := ReaderTurn(r, limit, maximumGapPolls, m);
    assert Accounts(next, limit, m.reading);
    GrowthAccounts(next, limit, m.reading, m.looking);
  }

  // ---------------------------------------------------------------- runs

  /** Each moment follows the one before it. */
  ghost predicate Follow(d: Disk, moments: seq<Moment>)
    decreases |moments|
  {
    moments == []
    || (&& IsDisk(moments[0].reading) && Grows(d, moments[0].reading) && Grows(moments[0].reading, moments[0].looking)
        && Follow(moments[0].looking, moments[1..]))
  }

  function LastDisk(d: Disk, moments: seq<Moment>): Disk {
    if moments == [] then d else moments[|moments| - 1].looking
  }

  ghost function ReaderRun(r: Reader, limit: nat, maximumGapPolls: nat, d: Disk, moments: seq<Moment>): Reader
    requires Accounts(r, limit, d) && Follow(d, moments)
    decreases |moments|
  {
    if moments == [] then r
    else
      GrowthAccounts(r, limit, d, moments[0].reading);
      TurnAccounts(r, limit, maximumGapPolls, moments[0]);
      ReaderRun(ReaderTurn(r, limit, maximumGapPolls, moments[0]), limit, maximumGapPolls,
                moments[0].looking, moments[1..])
  }

  /** Over any run on files that are only appended to and rotated by renaming, what was read is, file by file,
      all that each file held when it was last read, and the beginning of the current one: a file loses exactly
      the bytes appended to it after that. */
  lemma {:induction false} RunAccounts(r: Reader, limit: nat, maximumGapPolls: nat, d: Disk, moments: seq<Moment>)
    requires Accounts(r, limit, d) && Follow(d, moments)
    ensures Accounts(ReaderRun(r, limit, maximumGapPolls, d, moments), limit, LastDisk(d, moments))
    decreases |moments|
  {
    if moments != [] {
      GrowthAccounts(r, limit, d, moments[0].reading);
      TurnAccounts(r, limit, maximumGapPolls, moments[0]);
      RunAccounts(ReaderTurn(r, limit, maximumGapPolls, moments[0]), limit, maximumGapPolls,
                  moments[0].looking, moments[1..]);
      assert LastDisk(d, moments) == LastDisk(moments[0].looking, moments[1..]);
    }
  }

  lemma StartAccounts(limit: nat, d: Disk)
    requires limit > 0
    ensures Accounts(Reader(Initial(), []), limit, d)
  {
    assert Joined([]) == [];
  }

  /** The turn that leaves a file loses exactly what was appended between its empty read and its look at the path:
      the file was read to the end it had at the read, and to no further byte. */
  lemma RotationLosesExactly(r: Reader, limit: nat, maximumGapPolls: nat, m: Moment)
    requires IsDisk(m.reading) && Accounts(r, limit, m.reading) && Grows(m.reading, m.looking)
    requires r.follower.stream.Some? && ReaderTurn(r, limit, maximumGapPolls, m).follower.stream == None
    ensures var id := r.follower.stream.value.identity;
      var next := ReaderTurn(r, limit, maximumGapPolls, m);
      && next.left == r.left + [Left(id, m.reading.files[id])]
      && next.follower.read == r.follower.read == Joined(Contents(r.left)) + m.reading.files[id]
      && (m.looking.files[id] == m.reading.files[id] <==> next.left[|r.left|].content == m.looking.files[id])
  {
    var f, tick := r.follower, TickOf(r.follower, m);
    var content := m.reading.files[f.stream.value.identity];
    ReadAccounts(f, limit, maximumGapPolls, tick, content, Joined(Contents(r.left)));
    assert content[..|content|] == content;
  }

  /** A turn leaves its file exactly when it has read it to the end and then finds the path naming another. */
  lemma LeavesExactly(r: Reader, limit: nat, maximumGapPolls: nat, m: Moment)
    requires IsDisk(m.reading) && Accounts(r, limit, m.reading) && Grows(m.reading, m.looking)
    requires r.follower.stream.Some?
    ensures var s := r.follower.stream.value;
      ReaderTurn(r, limit, maximumGapPolls, m).follower.stream == None
      <==> && s.position == |m.reading.files[s.identity]|
           && m.looking.path.Some? && m.looking.path.value != s.identity
  {
    var f, tick := r.follower, TickOf(r.follower, m);
    var content := m.reading.files[f.stream.value.identity];
    ReadAccounts(f, limit, maximumGapPolls, tick, content, Joined(Contents(r.left)));
    assert ReadlineAvailable(tick.readable.value, limit - |f.pending|) == [] <==> tick.readable.value == [];
  }
}
