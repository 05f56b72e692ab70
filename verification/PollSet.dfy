/** The poll set (`lua/tui_lua.c`): parallel arrays of descriptors and tags, kept compact by shifting. */
module PollSet {

  const LIMIT_JOBS: nat := 32

  datatype Direction = Rd | Wr

  datatype Entry = Entry(fd: int, tag: int)

  /** What a removal hands back: the tag is set only where the code sets it. */
  datatype Found = Missing | Untagged | Tagged(tag: int)

  // ------------------------------------------------------------------ entries as a sequence

  predicate HasFd(s: seq<Entry>, fd: int) {
    exists i :: 0 <= i < |s| && s[i].fd == fd
  }

  /** Each descriptor at most once. */
  predicate DistinctFds(s: seq<Entry>) {
    forall i, j :: 0 <= i < j < |s| ==> s[i].fd != s[j].fd
  }

  /** Removal of the first entry for `fd`. */
  function RemoveFd(s: seq<Entry>, fd: int): (r: seq<Entry>)
    ensures |r| <= |s|
  {
    if s == [] then [] else if s[0].fd == fd then s[1..] else [s[0]] + RemoveFd(s[1..], fd)
  }

  function TagOf(s: seq<Entry>, fd: int): Found {
    if s == [] then Missing else if s[0].fd == fd then Tagged(s[0].tag) else TagOf(s[1..], fd)
  }

  /** The abstract value of one direction. */
  function AsMap(s: seq<Entry>): map<int, int> {
    if s == [] then map[] else AsMap(s[1..])[s[0].fd := s[0].tag]
  }

  lemma {:induction false} AsMapKeys(s: seq<Entry>, fd: int)
    ensures fd in AsMap(s) <==> HasFd(s, fd)
    ensures fd in AsMap(s) ==> TagOf(s, fd) == Tagged(AsMap(s)[fd])
    ensures fd !in AsMap(s) ==> TagOf(s, fd) == Missing
  {
    if s != [] {
      AsMapKeys(s[1..], fd);
      assert s[0].fd == fd ==> HasFd(s, fd);
      if HasFd(s[1..], fd) {
        var i :| 0 <= i < |s[1..]| && s[1..][i].fd == fd;
        assert s[i + 1].fd == fd;
      }
      if HasFd(s, fd) && s[0].fd != fd {
        var i :| 0 <= i < |s| && s[i].fd == fd;
        assert s[1..][i - 1].fd == fd;
      }
    }
  }

  /** Removing keeps every other pair and its order: what is left is the entries before the removed one
      followed by the entries behind it. */
  lemma {:induction false} RemoveFdShape(s: seq<Entry>, fd: int, i: nat)
    requires i < |s| && s[i].fd == fd && forall j :: 0 <= j < i ==> s[j].fd != fd
    ensures RemoveFd(s, fd) == s[..i] + s[i + 1..] && TagOf(s, fd) == Tagged(s[i].tag)
  {
    if i > 0 {
      RemoveFdShape(s[1..], fd, i - 1);
      assert s[..i] == [s[0]] + s[1..][..i - 1];
      assert s[i + 1..] == s[1..][i..];
    }
  }

  lemma {:induction false} RemoveFdMissing(s: seq<Entry>, fd: int)
    requires !HasFd(s, fd)
    ensures RemoveFd(s, fd) == s && TagOf(s, fd) == Missing
  {
    if s != [] {
      assert s[0].fd != fd;
      assert forall i :: 0 <= i < |s[1..]| ==> s[1..][i] == s[i + 1];
      RemoveFdMissing(s[1..], fd);
    }
  }

  /** On a set that holds each descriptor at most once, removal is removal from the map, and a removal
      followed by an insertion at the end is a map update. */
  lemma {:induction false} RemoveFdIsMapRemove(s: seq<Entry>, fd: int)
    requires DistinctFds(s)
    ensures AsMap(RemoveFd(s, fd)) == AsMap(s) - {fd}
  {
    if s != [] {
      DistinctTail(s);
      AsMapKeys(s[1..], s[0].fd);
      if s[0].fd != fd {
        RemoveFdIsMapRemove(s[1..], fd);
        assert RemoveFd(s, fd)[1..] == RemoveFd(s[1..], fd);
      }
    }
  }

  lemma DistinctTail(s: seq<Entry>)
    requires s != [] && DistinctFds(s)
    ensures DistinctFds(s[1..]) && !HasFd(s[1..], s[0].fd)
  {
    assert forall i :: 0 <= i < |s[1..]| ==> s[1..][i] == s[i + 1];
  }

  lemma DistinctCons(e: Entry, s: seq<Entry>)
    requires DistinctFds(s) && !HasFd(s, e.fd)
    ensures DistinctFds([e] + s)
  {
    assert forall i :: 0 < i < |[e] + s| ==> ([e] + s)[i] == s[i - 1];
  }

  lemma {:induction false} RemoveFdDistinct(s: seq<Entry>, fd: int)
    requires DistinctFds(s)
    ensures DistinctFds(RemoveFd(s, fd)) && !HasFd(RemoveFd(s, fd), fd)
  {
    if s != [] {
      DistinctTail(s);
      if s[0].fd != fd {
        RemoveFdDistinct(s[1..], fd);
        RemoveFdSubset(s[1..], fd);
        var r := RemoveFd(s[1..], fd);
        assert !HasFd(r, s[0].fd);
        DistinctCons(s[0], r);
      }
    }
  }

  lemma {:induction false} RemoveFdSubset(s: seq<Entry>, fd: int)
    ensures forall e :: e in RemoveFd(s, fd) ==> e in s
    ensures forall e :: e in s && e.fd != fd ==> e in RemoveFd(s, fd)
  {
    if s != [] {
      RemoveFdSubset(s[1..], fd);
    }
  }

  lemma {:induction false} AsMapAppend(s: seq<Entry>, e: Entry)
    requires !HasFd(s, e.fd)
    ensures AsMap(s + [e]) == AsMap(s)[e.fd := e.tag]
  {
    if s == [] {
      assert [e][1..] == [];
    } else {
      assert (s + [e])[1..] == s[1..] + [e];
      assert s[0].fd != e.fd;
      assert forall i :: 0 <= i < |s[1..]| ==> s[1..][i] == s[i + 1];
      AsMapAppend(s[1..], e);
    }
  }

  lemma RearmIsMapUpdate(s: seq<Entry>, e: Entry)
    requires DistinctFds(s)
    ensures DistinctFds(RemoveFd(s, e.fd) + [e])
    ensures AsMap(RemoveFd(s, e.fd) + [e]) == AsMap(s)[e.fd := e.tag]
  {
    RemoveFdIsMapRemove(s, e.fd);
    RemoveFdDistinct(s, e.fd);
    AsMapAppend(RemoveFd(s, e.fd), e);
  }

  // ------------------------------------------------------------------ the arrays

  ghost function Zip(fds: array<int>, tags: array<int>, used: nat): (s: seq<Entry>)
    requires used <= fds.Length && used <= tags.Length
    reads fds, tags
    ensures |s| == used && forall i :: 0 <= i < used ==> s[i] == Entry(fds[i], tags[i])
  {
    seq(used, i requires 0 <= i < used <= fds.Length && used <= tags.Length reads fds, tags => Entry(fds[i], tags[i]))
  }

  class NbioJobs {
    const fdin: array<int>
    const fdinTags: array<int>
    var fdinUsed: nat
    const fdout: array<int>
    const fdoutTags: array<int>
    var fdoutUsed: nat

    ghost predicate Valid()
      reads this
    {
      && fdin.Length == fdinTags.Length == fdout.Length == fdoutTags.Length == LIMIT_JOBS
      && fdin != fdinTags && fdin != fdout && fdin != fdoutTags
      && fdinTags != fdout && fdinTags != fdoutTags && fdout != fdoutTags
      && fdinUsed <= LIMIT_JOBS && fdoutUsed <= LIMIT_JOBS
    }

    ghost function In(): seq<Entry>
      requires Valid()
      reads this, fdin, fdinTags
    {
      Zip(fdin, fdinTags, fdinUsed)
    }

    ghost function Out(): seq<Entry>
      requires Valid()
      reads this, fdout, fdoutTags
    {
      Zip(fdout, fdoutTags, fdoutUsed)
    }

    constructor ()
      ensures Valid() && In() == [] && Out() == []
      ensures fresh(fdin) && fresh(fdinTags) && fresh(fdout) && fresh(fdoutTags)
    {
      fdin, fdinTags, fdinUsed := new int[LIMIT_JOBS], new int[LIMIT_JOBS], 0;
      fdout, fdoutTags, fdoutUsed := new int[LIMIT_JOBS], new int[LIMIT_JOBS], 0;
    }

    /** `queue_nbio`: appends unless the descriptor is invalid or the direction is full. */
    method Queue(fd: int, dir: Direction, tag: int) returns (ok: bool)
      requires Valid()
      modifies this, fdin, fdinTags, fdout, fdoutTags
      ensures Valid()
      ensures ok == (fd != -1 && |old(if dir.Rd? then In() else Out())| < LIMIT_JOBS)
      ensures In() == if ok && dir.Rd? then old(In()) + [Entry(fd, tag)] else old(In())
      ensures Out() == if ok && dir.Wr? then old(Out()) + [Entry(fd, tag)] else old(Out())
    {
      if fd == -1 {
        return false;
      }
      if dir.Rd? {
        if fdinUsed >= LIMIT_JOBS {
          return false;
        }
        fdin[fdinUsed], fdinTags[fdinUsed] := fd, tag;
        fdinUsed := fdinUsed + 1;
      } else {
        if fdoutUsed >= LIMIT_JOBS {
          return false;
        }
        fdout[fdoutUsed], fdoutTags[fdoutUsed] := fd, tag;
        fdoutUsed := fdoutUsed + 1;
      }
      return true;
    }

    /** `dequeue_nbio`: the read side is searched for read removals only, the write side always, and the
        tag is reported from the write side only.  The read side moves one element more than there is,
        so the slot that falls free receives whatever lies behind the used part (`beyond` when that is
        behind the array); the free slot is never looked at. */
    method Dequeue(fd: int, dir: Direction, beyond: int) returns (found: Found)
      requires Valid()
      modifies this, fdin, fdinTags, fdout, fdoutTags
      ensures Valid()
      ensures In() == if dir.Rd? then RemoveFd(old(In()), fd) else old(In())
      ensures Out() == RemoveFd(old(Out()), fd)
      ensures found == if HasFd(old(Out()), fd) then TagOf(old(Out()), fd)
                       else if dir.Rd? && HasFd(old(In()), fd) then Untagged else Missing
    {
      hide RemoveFd, HasFd, TagOf;
      found := Missing;
      if dir.Rd? {
        var n := fdinUsed;
        var inside := n < LIMIT_JOBS;
        found, fdinUsed := Take(fdin, fdinTags, n, fd,
          if inside then fdin[n] else beyond, if inside then fdinTags[n] else beyond);
        if found.Tagged? {
          found := Untagged;
        }
      }
      AsMapKeys(old(Out()), fd);
      AsMapKeys(old(In()), fd);
      var n := fdoutUsed;
      if n > 0 {
        var tag;
        tag, fdoutUsed := Take(fdout, fdoutTags, n, fd, fdout[n - 1], fdoutTags[n - 1]);
        if tag.Tagged? {
          found := tag;
        }
      }
    }
  }

  /** The search for `fd` in one direction and the two shifts that close the gap. */
  method Take(fds: array<int>, tags: array<int>, used: nat, fd: int, fdBehind: int, tagBehind: int)
    returns (found: Found, left: nat)
    requires fds != tags && used <= fds.Length && used <= tags.Length
    modifies fds, tags
    ensures left <= used && Zip(fds, tags, left) == RemoveFd(old(Zip(fds, tags, used)), fd)
    ensures found == TagOf(old(Zip(fds, tags, used)), fd)
  {
    ghost var s := Zip(fds, tags, used);
    var i := 0;
    while i < used
      invariant i <= used && Zip(fds, tags, used) == s
      invariant forall j :: 0 <= j < i ==> s[j].fd != fd
    {
      if fds[i] == fd {
        RemoveFdShape(s, fd, i);
        found := Tagged(tags[i]);
        ShiftDown(tags, i, used, tagBehind);
        ShiftDown(fds, i, used, fdBehind);
        assert Zip(fds, tags, used - 1) == s[..i] + s[i + 1..];
        return found, used - 1;
      }
      i := i + 1;
    }
    RemoveFdMissing(s, fd);
    return Missing, used;
  }

  /** The memory move of a removal: everything behind `i` comes one place down, and the last used slot
      takes what came from behind it. */
  method ShiftDown(a: array<int>, i: nat, used: nat, behind: int)
    requires i < used <= a.Length
    modifies a
    ensures forall k :: 0 <= k < a.Length ==>
              a[k] == if i <= k < used - 1 then old(a[k + 1]) else if k == used - 1 then behind else old(a[k])
  {
    forall k | i <= k < used {
      a[k] := if k + 1 < used then a[k + 1] else behind;
    }
  }
}
