/** The retention sweep `DeleteOld`: which entries of a job's dump folder it
    removes, and the folder it leaves behind. */
module Retention {
  import opened Common
  import opened Strings
  import opened Files
  import opened Timestamps
  import opened Config

  const SecondsPerDay: int := 86400
  const NanosPerSecond: int := 1_000_000_000
  /** `time.Hour`, in nanoseconds. */
  const NanosPerHour: int := 3_600_000_000_000
  const Two63: int := 0x8000_0000_0000_0000
  const Two64: int := 0x1_0000_0000_0000_0000

  /** The value Go's two's-complement `int64` arithmetic leaves of `x`. */
  function Wrap64(x: int): (r: int)
    ensures -Two63 <= r < Two63
    ensures -Two63 <= x < Two63 ==> r == x
    ensures (x - r) % Two64 == 0
  {
    (x + Two63) % Two64 - Two63
  }

  // ---------------------------------------------------------------------
  // The cutoff as written: `now.Add(-1 * time.Duration(24*days) * time.Hour)`.

  /** The duration added to `now`, in nanoseconds, with every `int64` product
      wrapped as Go wraps it. */
  function CutoffOffsetAsWritten(days: Int64): (r: int)
    ensures -Two63 <= r < Two63
    ensures -106751 <= days <= 106751 ==> r == -days * SecondsPerDay * NanosPerSecond
  {
    Wrap64(Wrap64(-1 * Wrap64(24 * days)) * NanosPerHour)
  }

  /** `t.Before(then)` with the cutoff as written; `now` is taken to the second. */
  predicate ExpiredAsWritten(t: WallClock, now: WallClock, days: Int64)
    requires Valid(t) && Valid(now)
    ensures -106751 <= days <= 106751 ==> (ExpiredAsWritten(t, now, days) <==> Expired(t, now, days))
  {
    Seconds(t) * NanosPerSecond < Seconds(now) * NanosPerSecond + CutoffOffsetAsWritten(days)
  }

  // ---------------------------------------------------------------------
  // The cutoff as intended: `days` whole days before `now`.

  function CutoffSeconds(now: WallClock, days: int): int
    requires Valid(now)
  {
    Seconds(now) - SecondsPerDay * days
  }

  /** Strictly before the cutoff: a reading exactly at the cutoff is not expired. */
  predicate Expired(t: WallClock, now: WallClock, days: int)
    requires Valid(t) && Valid(now)
  {
    Seconds(t) < CutoffSeconds(now, days)
  }

  /** While `24 * days` hours fits in a `time.Duration` (up to 106751 days either
      way) the cutoff as written is the intended one. */
  lemma CutoffAgreesWithoutOverflow(t: WallClock, now: WallClock, days: Int64)
    requires Valid(t) && Valid(now)
    requires -106751 <= days <= 106751
    ensures CutoffOffsetAsWritten(days) == -days * SecondsPerDay * NanosPerSecond
    ensures ExpiredAsWritten(t, now, days) <==> Expired(t, now, days)
  {
    assert Wrap64(24 * days) == 24 * days;
    assert Wrap64(-1 * (24 * days)) == -24 * days;
    assert -24 * days * NanosPerHour == -days * SecondsPerDay * NanosPerSecond;
    assert Wrap64(-24 * days * NanosPerHour) == -24 * days * NanosPerHour;
  }

  /** With a retention of 106752 days the duration overflows, the cutoff moves
      about 292 years into the future, and a dump made this very second counts
      as expired. */
  lemma CutoffOverflowExpiresFreshDump(now: WallClock)
    requires Valid(now)
    ensures CutoffOffsetAsWritten(106752) == 9223371273709551616
    ensures ExpiredAsWritten(now, now, 106752)
    ensures !Expired(now, now, 106752)
    ensures ShouldRemove(Entry(ArtifactName(now), false), now, 106752)
    ensures !ShouldRemoveIntended(Entry(ArtifactName(now), false), now, 106752)
  {
    assert Wrap64(24 * 106752) == 2562048;
    assert Wrap64(-1 * 2562048) == -2562048;
    assert -2562048 * NanosPerHour == -9223372800000000000;
    assert Wrap64(-9223372800000000000) == 9223371273709551616;
    ArtifactNameRoundTrip(now);
  }

  /** With a retention of -106752 days the duration wraps the other way: the
      cutoff moves about 292 years into the past, so a dump made this very
      second is kept, where a negative retention would otherwise remove it. */
  lemma CutoffOverflowKeepsFreshDump(now: WallClock)
    requires Valid(now)
    ensures CutoffOffsetAsWritten(-106752) == -9223371273709551616
    ensures !ExpiredAsWritten(now, now, -106752)
    ensures Expired(now, now, -106752)
    ensures !ShouldRemove(Entry(ArtifactName(now), false), now, -106752)
    ensures ShouldRemoveIntended(Entry(ArtifactName(now), false), now, -106752)
  {
    assert Wrap64(24 * -106752) == -2562048;
    assert Wrap64(-1 * -2562048) == 2562048;
    assert 2562048 * NanosPerHour == 9223372800000000000;
    assert Wrap64(9223372800000000000) == -9223371273709551616;
    ArtifactNameRoundTrip(now);
  }

  // ---------------------------------------------------------------------
  // Which entries the sweep removes.

  /** The entries the sweep looks at: files (not directories) named "*.tar". */
  predicate IsCandidate(e: Entry) {
    !e.isDir && HasSuffix(e.name, Extension)
  }

  /** The reading a candidate's name parses to, if any. */
  function Stamp(e: Entry): Option<WallClock>
    requires IsCandidate(e)
  {
    Parse(Stem(e.name))
  }

  /** The rule of the program: a candidate is removed when its name does not
      parse, or when its reading is strictly before the cutoff as the program
      computes it. Only candidates are ever removed, and every candidate whose
      name does not parse is. */
  predicate ShouldRemove(e: Entry, now: WallClock, days: Int64)
    requires Valid(now)
    ensures ShouldRemove(e, now, days) ==> !e.isDir && HasSuffix(e.name, Extension)
    ensures IsCandidate(e) && Stamp(e).None? ==> ShouldRemove(e, now, days)
  {
    IsCandidate(e) && (Stamp(e).None? || ExpiredAsWritten(Stamp(e).value, now, days))
  }

  /** The safer rule, which leaves alone any name it cannot read as a reading;
      it uses the same cutoff as the program. */
  predicate ShouldRemoveSafe(e: Entry, now: WallClock, days: Int64)
    requires Valid(now)
    ensures ShouldRemoveSafe(e, now, days) ==> IsCandidate(e) && Stamp(e).Some?
  {
    IsCandidate(e) && Stamp(e).Some? && ExpiredAsWritten(Stamp(e).value, now, days)
  }

  /** The program's rule with the cutoff it evidently intends: `days` whole
      days before `now`, for any retention. */
  predicate ShouldRemoveIntended(e: Entry, now: WallClock, days: int)
    requires Valid(now)
  {
    IsCandidate(e) && (Stamp(e).None? || Expired(Stamp(e).value, now, days))
  }

  /** Whenever the duration does not overflow, the program's rule is the
      intended one. */
  lemma IntendedAgreesWithoutOverflow(e: Entry, now: WallClock, days: Int64)
    requires Valid(now)
    requires -106751 <= days <= 106751
    ensures ShouldRemove(e, now, days) == ShouldRemoveIntended(e, now, days)
  {
    if IsCandidate(e) && Stamp(e).Some? {
      CutoffAgreesWithoutOverflow(Stamp(e).value, now, days);
    }
  }

  /** Under the intended rule, for every retention, a dump is removed exactly
      when its reading is strictly before `days` days before `now`. */
  lemma IntendedRemovesIffOlder(t: WallClock, now: WallClock, days: int)
    requires Valid(t) && Valid(now)
    ensures ShouldRemoveIntended(Entry(ArtifactName(t), false), now, days)
            <==> Seconds(t) < Seconds(now) - SecondsPerDay * days
  {
    ArtifactNameRoundTrip(t);
  }

  /** The names the sweep tries to remove, in listing order: at most one per
      entry, and each a "*.tar" name. */
  function Doomed(listing: seq<Entry>, now: WallClock, days: Int64): (r: seq<string>)
    requires Valid(now)
    ensures |r| <= |listing|
    ensures forall i :: 0 <= i < |r| ==> HasSuffix(r[i], Extension)
    decreases |listing|
  {
    if listing == [] then []
    else
      var last := listing[|listing| - 1];
      Doomed(listing[..|listing| - 1], now, days) + (if ShouldRemove(last, now, days) then [last.name] else [])
  }

  /** What the safer rule would try to remove, in listing order. */
  function DoomedSafe(listing: seq<Entry>, now: WallClock, days: Int64): seq<string>
    requires Valid(now)
    decreases |listing|
  {
    if listing == [] then []
    else
      var last := listing[|listing| - 1];
      DoomedSafe(listing[..|listing| - 1], now, days) + (if ShouldRemoveSafe(last, now, days) then [last.name] else [])
  }

  lemma DoomedAppend(listing: seq<Entry>, e: Entry, now: WallClock, days: Int64)
    requires Valid(now)
    ensures Doomed(listing + [e], now, days)
         == Doomed(listing, now, days) + (if ShouldRemove(e, now, days) then [e.name] else [])
  {
    assert (listing + [e])[..|listing|] == listing;
  }

  /** A name is doomed exactly when some listed entry of that name is to be removed. */
  lemma {:induction false} DoomedMembers(listing: seq<Entry>, now: WallClock, days: Int64)
    requires Valid(now)
    ensures forall n :: n in Doomed(listing, now, days) <==>
              exists i :: 0 <= i < |listing| && listing[i].name == n && ShouldRemove(listing[i], now, days)
    decreases |listing|
  {
    if listing != [] {
      var init := listing[..|listing| - 1];
      var last := listing[|listing| - 1];
      DoomedMembers(init, now, days);
      assert listing == init + [last];
      DoomedAppend(init, last, now, days);
      forall n ensures n in Doomed(listing, now, days) <==>
        exists i :: 0 <= i < |listing| && listing[i].name == n && ShouldRemove(listing[i], now, days)
      {
        if n in Doomed(init, now, days) {
          var i :| 0 <= i < |init| && init[i].name == n && ShouldRemove(init[i], now, days);
          assert listing[i] == init[i];
        }
        if exists i :: 0 <= i < |listing| && listing[i].name == n && ShouldRemove(listing[i], now, days) {
          var i :| 0 <= i < |listing| && listing[i].name == n && ShouldRemove(listing[i], now, days);
          if i < |init| {
            assert init[i] == listing[i];
          }
        }
      }
    }
  }

  /** Everything the safer rule removes, the program removes too, in the same order. */
  lemma {:induction false} SafeRuleRemovesLess(listing: seq<Entry>, now: WallClock, days: Int64)
    requires Valid(now)
    ensures IsSubsequence(DoomedSafe(listing, now, days), Doomed(listing, now, days))
    decreases |listing|
  {
    if listing != [] {
      var init := listing[..|listing| - 1];
      var last := listing[|listing| - 1];
      SafeRuleRemovesLess(init, now, days);
      if ShouldRemoveSafe(last, now, days) {
        SubsequenceExtendBoth(DoomedSafe(init, now, days), Doomed(init, now, days), last.name);
      } else if ShouldRemove(last, now, days) {
        assert DoomedSafe(listing, now, days) == DoomedSafe(init, now, days);
        assert Doomed(listing, now, days) == Doomed(init, now, days) + [last.name];
        SubsequenceExtendRight(DoomedSafe(init, now, days), Doomed(init, now, days), last.name);
      } else {
        assert DoomedSafe(listing, now, days) == DoomedSafe(init, now, days);
        assert Doomed(listing, now, days) == Doomed(init, now, days);
      }
    }
  }

  /** The two rules disagree on exactly the "*.tar" files whose name does not
      parse: the program removes them, the safer rule keeps them. */
  lemma RulesDifferOnUnparsable(e: Entry, now: WallClock, days: Int64)
    requires Valid(now)
    ensures ShouldRemoveSafe(e, now, days) ==> ShouldRemove(e, now, days)
    ensures ShouldRemove(e, now, days) && !ShouldRemoveSafe(e, now, days)
            <==> IsCandidate(e) && Stamp(e).None?
  {
  }

  /** A foreign file that merely ends in ".tar" is deleted by the program and
      kept by the safer rule; a file with another extension is kept by both. */
  lemma ForeignFilesExample(now: WallClock, days: Int64)
    requires Valid(now)
    ensures ShouldRemove(Entry("notanartifact.tar", false), now, days)
    ensures !ShouldRemoveSafe(Entry("notanartifact.tar", false), now, days)
    ensures !ShouldRemove(Entry("readme.txt", false), now, days)
    ensures !ShouldRemove(Entry("2024-03-02 23_59_59.tar", true), now, days)
  {
    assert Stem("notanartifact.tar") == "notanartifact";
    assert !HasSuffix("readme.txt", Extension) by {
      assert "readme.txt"[6..] == ".txt";
    }
  }

  /** A dump file is removed exactly when its reading is strictly before the
      cutoff: one stamped at the cutoff is kept, one a second earlier is removed. */
  lemma ArtifactRemovedIffOlder(t: WallClock, now: WallClock, days: Int64)
    requires Valid(t) && Valid(now)
    requires -106751 <= days <= 106751
    ensures ShouldRemove(Entry(ArtifactName(t), false), now, days)
            <==> Seconds(t) < Seconds(now) - SecondsPerDay * days
    ensures ShouldRemove(Entry(ArtifactName(t), false), now, days)
            == ShouldRemoveSafe(Entry(ArtifactName(t), false), now, days)
  {
    ArtifactNameRoundTrip(t);
    CutoffAgreesWithoutOverflow(t, now, days);
  }

  /** With a retention from zero to 106751 days, a dump made no earlier than
      the sweep's own clock reading survives the sweep: a sweep run just
      before a dump cannot remove it. (From 106752 days on it can; see
      `CutoffOverflowExpiresFreshDump`.) */
  lemma FreshArtifactSurvives(t: WallClock, sweepNow: WallClock, days: Int64)
    requires Valid(t) && Valid(sweepNow)
    requires 0 <= days <= 106751 && Seconds(sweepNow) <= Seconds(t)
    ensures !ShouldRemove(Entry(ArtifactName(t), false), sweepNow, days)
  {
    ArtifactRemovedIffOlder(t, sweepNow, days);
  }

  /** There is no special case for a retention of zero or less: with zero every
      dump older than `now` goes, and with a negative value down to -106751
      days every dump not from the future goes. (At -106752 days the duration
      wraps; see `CutoffOverflowKeepsFreshDump`.) */
  lemma NonPositiveRetention(t: WallClock, now: WallClock, days: Int64)
    requires Valid(t) && Valid(now)
    requires -106751 <= days <= 0
    ensures days == 0 ==> (ShouldRemove(Entry(ArtifactName(t), false), now, days) <==> Seconds(t) < Seconds(now))
    ensures days < 0 && Seconds(t) <= Seconds(now) ==> ShouldRemove(Entry(ArtifactName(t), false), now, days)
  {
    ArtifactRemovedIffOlder(t, now, days);
  }

  /** With `now` = 2024-03-10 00:00:00 and seven days of retention, a dump of
      2024-03-03 00:00:00 is kept and one of 2024-03-02 23:59:59 is removed. */
  lemma BoundaryExample()
    ensures var now := WallClock(2024, 3, 10, 0, 0, 0);
      && !ShouldRemove(Entry(ArtifactName(WallClock(2024, 3, 3, 0, 0, 0)), false), now, 7)
      && ShouldRemove(Entry(ArtifactName(WallClock(2024, 3, 2, 23, 59, 59)), false), now, 7)
  {
    var now := WallClock(2024, 3, 10, 0, 0, 0);
    var kept := WallClock(2024, 3, 3, 0, 0, 0);
    var gone := WallClock(2024, 3, 2, 23, 59, 59);
    assert Seconds(kept) == Seconds(now) - 7 * SecondsPerDay;
    assert Seconds(gone) == Seconds(kept) - 1;
    ArtifactRemovedIffOlder(kept, now, 7);
    ArtifactRemovedIffOlder(gone, now, 7);
  }

  // ---------------------------------------------------------------------
  // The sweep itself.

  /** `listing` is what `os.ReadDir` returned for the directory: distinct
      names, each present with the kind the listing gives. */
  predicate IsListingOf(listing: seq<Entry>, entries: map<string, bool>) {
    && DistinctNames(listing)
    && forall i :: 0 <= i < |listing| ==>
         listing[i].name in entries && entries[listing[i].name] == listing[i].isDir
  }

  /** A job's dump folder: its entries by name, each marked as a directory or not. */
  class Directory {
    var entries: map<string, bool>

    constructor (entries: map<string, bool>)
      ensures this.entries == entries
    {
      this.entries := entries;
    }

    /** `os.Remove`: fails on a missing name, and may fail on any other
        (permissions, a concurrent deleter); on success the name is gone. */
    method Remove(name: string) returns (ok: bool)
      modifies this
      ensures ok ==> name in old(entries) && entries == old(entries) - {name}
      ensures !ok ==> entries == old(entries)
    {
      if name in entries {
        ok :| true;
      } else {
        ok := false;
      }
      if ok {
        entries := entries - {name};
      }
    }
  }

  /** The folder after part of the sweep: it has lost exactly the doomed
      names whose removal did not fail, and every kept entry keeps its kind. */
  ghost predicate Swept(before: map<string, bool>, after: map<string, bool>, doomed: seq<string>, failed: seq<string>) {
    && (forall n :: n in after <==> n in before && (n !in doomed || n in failed))
    && (forall n :: n in after ==> after[n] == before[n])
  }

  /** One entry's turn in `DeleteOld`: a "*.tar" file whose name does not
      parse or is strictly before the cutoff is removed; `failed` reports a
      removal that did not succeed. */
  method Examine(dir: Directory, e: Entry, now: WallClock, days: Int64) returns (failed: bool)
    requires Valid(now)
    modifies dir
    ensures failed ==> ShouldRemove(e, now, days)
    ensures dir.entries == if ShouldRemove(e, now, days) && !failed then old(dir.entries) - {e.name} else old(dir.entries)
  {
    failed := false;
    if !e.isDir && HasSuffix(e.name, Extension) {
      var t := Parse(e.name[..|e.name| - 4]);
      assert t == Stamp(e);
      if t.None? || ExpiredAsWritten(t.value, now, days) {
        var ok := dir.Remove(e.name);
        failed := !ok;
      }
    }
  }

  /** The failures reported so far stay a subsequence of the doomed names
      when the sweep examines one more entry. */
  lemma FailedStep(listing: seq<Entry>, i: nat, failed: seq<string>, f: bool, now: WallClock, days: Int64)
    requires Valid(now) && i < |listing|
    requires IsSubsequence(failed, Doomed(listing[..i], now, days))
    requires f ==> ShouldRemove(listing[i], now, days)
    ensures IsSubsequence(if f then failed + [listing[i].name] else failed, Doomed(listing[..i + 1], now, days))
  {
    var e := listing[i];
    var doomed := Doomed(listing[..i], now, days);
    assert listing[..i + 1] == listing[..i] + [e];
    DoomedAppend(listing[..i], e, now, days);
    if f {
      SubsequenceExtendBoth(failed, doomed, e.name);
    } else if ShouldRemove(e, now, days) {
      assert Doomed(listing[..i + 1], now, days) == doomed + [e.name];
      SubsequenceExtendRight(failed, doomed, e.name);
    } else {
      assert Doomed(listing[..i + 1], now, days) == doomed;
    }
  }

  /** `Swept` still holds when the sweep examines one more entry, whose name
      is new because the listing's names are distinct. */
  lemma SweptStep(before: map<string, bool>, cur: map<string, bool>, next: map<string, bool>,
                  listing: seq<Entry>, i: nat, failed: seq<string>, f: bool, now: WallClock, days: Int64)
    requires Valid(now) && i < |listing| && DistinctNames(listing)
    requires IsSubsequence(failed, Doomed(listing[..i], now, days))
    requires Swept(before, cur, Doomed(listing[..i], now, days), failed)
    requires f ==> ShouldRemove(listing[i], now, days)
    requires next == if ShouldRemove(listing[i], now, days) && !f then cur - {listing[i].name} else cur
    ensures Swept(before, next, Doomed(listing[..i + 1], now, days), if f then failed + [listing[i].name] else failed)
  {
    var e := listing[i];
    assert listing[..i + 1] == listing[..i] + [e];
    DoomedAppend(listing[..i], e, now, days);
    FreshName(listing, i, failed, now, days);
  }

  /** An entry's name is neither doomed nor reported before its own turn. */
  lemma FreshName(listing: seq<Entry>, i: nat, failed: seq<string>, now: WallClock, days: Int64)
    requires Valid(now) && i < |listing| && DistinctNames(listing)
    requires IsSubsequence(failed, Doomed(listing[..i], now, days))
    ensures listing[i].name !in Doomed(listing[..i], now, days)
    ensures listing[i].name !in failed
  {
    DoomedMembers(listing[..i], now, days);
    SubsequenceMembers(failed, Doomed(listing[..i], now, days));
  }

  /** `DeleteOld`: examines every listed entry once, in listing order; tries to
      remove exactly the doomed ones; a failed removal is logged (returned in
      `failed`) and the sweep goes on. Afterwards the folder has lost exactly
      the doomed names whose removal succeeded. */
  method DeleteOld(dir: Directory, listing: seq<Entry>, c: BackupConfig, now: WallClock)
    returns (failed: seq<string>)
    requires Valid(now)
    requires IsListingOf(listing, dir.entries)
    modifies dir
    ensures IsSubsequence(failed, Doomed(listing, now, c.daysBeforeDelete))
    ensures forall n :: n in dir.entries <==>
              n in old(dir.entries) && (n !in Doomed(listing, now, c.daysBeforeDelete) || n in failed)
    ensures forall n :: n in dir.entries ==> dir.entries[n] == old(dir.entries)[n]
    ensures forall i :: 0 <= i < |listing| ==>
              (listing[i].name in dir.entries
               <==> !ShouldRemove(listing[i], now, c.daysBeforeDelete) || listing[i].name in failed)
    ensures forall n :: n in old(dir.entries) && (old(dir.entries)[n] || !HasSuffix(n, Extension))
              ==> n in dir.entries
  {
    var days := c.daysBeforeDelete;
    ghost var before := dir.entries;
    failed := [];
    var i := 0;
    while i < |listing|
      invariant 0 <= i <= |listing|
      invariant IsSubsequence(failed, Doomed(listing[..i], now, days))
      invariant Swept(before, dir.entries, Doomed(listing[..i], now, days), failed)
    {
      ghost var cur := dir.entries;
      var f := Examine(dir, listing[i], now, days);
      FailedStep(listing, i, failed, f, now, days);
      SweptStep(before, cur, dir.entries, listing, i, failed, f, now, days);
      if f {
        failed := failed + [listing[i].name];
      }
      i := i + 1;
    }
    assert listing[..i] == listing;
    DeleteOldOutcome(before, dir.entries, listing, failed, now, days);
  }

  /** What the finished sweep means for each listed entry and for the entries
      the sweep never considers. */
  lemma DeleteOldOutcome(before: map<string, bool>, after: map<string, bool>, listing: seq<Entry>,
                         failed: seq<string>, now: WallClock, days: Int64)
    requires Valid(now) && IsListingOf(listing, before)
    requires IsSubsequence(failed, Doomed(listing, now, days))
    requires Swept(before, after, Doomed(listing, now, days), failed)
    ensures forall i :: 0 <= i < |listing| ==>
              (listing[i].name in after <==> !ShouldRemove(listing[i], now, days) || listing[i].name in failed)
    ensures forall n :: n in before && (before[n] || !HasSuffix(n, Extension)) ==> n in after
  {
    assert DistinctNames(listing);
    DoomedMembers(listing, now, days);
    SubsequenceMembers(failed, Doomed(listing, now, days));
  }
}
