/**
 * `get_iso_drive_letter`: scans the drive roots `C:\` to `Z:\` in order,
 * skipping the system drive and the home drive, and returns the first root
 * that exists and holds a `sources` directory. What the file system shows
 * is an input: the set of roots that exist and the set of roots under
 * which `sources` is a directory. The home-drive comparison is modelled
 * both as written and as intended (`SkipRule`).
 */
module IsoProbe {
  import opened Wrappers
  import opened Text

  /** The letters probed, in probing order. */
  const Letters := "CDEFGHIJKLMNOPQRSTUVWXYZ"

  /** The letters run from `C` to `Z` in alphabetical order. */
  lemma LetterAt(k: nat)
    requires k < |Letters|
    ensures Letters[k] == ('C' as int + k) as char
  {
  }

  const SystemRoot := "C:\\"

  /** `f'{letter}:\\'`. */
  function DriveRoot(c: char): string {
    [c, ':', '\\']
  }

  /** The roots `os.path.exists` reports, and those where `isdir(join(root, 'sources'))` holds. */
  datatype DriveView = DriveView(present: set<string>, withSources: set<string>)

  /** `os.environ.get("HOMEDRIVE", "")`. */
  function HomeDrive(env: Option<string>): string {
    if env.Some? then env.value else ""
  }

  /** The skip test as written: the root, upper-cased, is `C:\` or the upper-cased HOMEDRIVE. */
  predicate SkippedAsWritten(home: Option<string>, drive: string) {
    Upper(drive) == SystemRoot || Upper(drive) == Upper(HomeDrive(home))
  }

  /**
   * The skip test as intended: HOMEDRIVE names a drive without its
   * backslash (`D:`), so the home root is also matched with one appended.
   */
  predicate Skipped(home: Option<string>, drive: string) {
    var h := Upper(HomeDrive(home));
    Upper(drive) == SystemRoot || Upper(drive) == h || Upper(drive) == h + "\\"
  }

  predicate Qualifies(view: DriveView, drive: string) {
    drive in view.present && drive in view.withSources
  }

  /** A root the probe may return under the skip test `skip`. */
  predicate Eligible(skip: string -> bool, view: DriveView, drive: string) {
    !skip(drive) && Qualifies(view, drive)
  }

  /** The first root over `letters` that is not skipped and qualifies. */
  function FirstMatch(letters: string, skip: string -> bool, view: DriveView): Option<string>
    decreases |letters|
  {
    if letters == [] then None
    else if Eligible(skip, view, DriveRoot(letters[0])) then Some(DriveRoot(letters[0]))
    else FirstMatch(letters[1..], skip, view)
  }

  /**
   * The home-drive comparison the probe makes: `AsWritten` is the one of
   * `get_iso_drive_letter`, `Intended` also matches the root with its
   * backslash.
   */
  datatype SkipRule = AsWritten | Intended

  predicate Skips(rule: SkipRule, home: Option<string>, drive: string) {
    if rule == AsWritten then SkippedAsWritten(home, drive) else Skipped(home, drive)
  }

  /** What `get_iso_drive_letter` returns when it skips roots by `rule`. */
  function Probe(rule: SkipRule, home: Option<string>, view: DriveView): Option<string> {
    FirstMatch(Letters, d => Skips(rule, home, d), view)
  }

  /**
   * The probing loop, with its `continue` and early return; with `AsWritten`
   * it makes exactly the comparisons of the source.
   */
  method GetIsoDriveLetter(rule: SkipRule, home: Option<string>, view: DriveView) returns (r: Option<string>)
    ensures r == Probe(rule, home, view)
  {
    var homeUpper := Upper(HomeDrive(home));
    var i := 0;
    while i < |Letters|
      invariant 0 <= i <= |Letters|
      invariant Probe(rule, home, view) == FirstMatch(Letters[i..], d => Skips(rule, home, d), view)
    {
      assert Letters[i..][1..] == Letters[i + 1..];
      var drive := DriveRoot(Letters[i]);
      var upper := Upper(drive);
      if upper == SystemRoot || upper == homeUpper || (rule == Intended && upper == homeUpper + "\\") {
        i := i + 1;
        continue;
      }
      if drive in view.present {
        if drive in view.withSources {
          return Some(drive);
        }
      }
      i := i + 1;
    }
    return None;
  }

  // ---------------------------------------------------------------------
  // The first-match search.
  // ---------------------------------------------------------------------

  /**
   * The search returns the root of the first eligible letter, and `None`
   * exactly when no letter is eligible.
   */
  lemma {:induction false} FirstMatchIsFirst(letters: string, skip: string -> bool, view: DriveView)
    ensures var r := FirstMatch(letters, skip, view);
      && (r.None? <==> forall k :: 0 <= k < |letters| ==> !Eligible(skip, view, DriveRoot(letters[k])))
      && (r.Some? ==>
            exists k :: 0 <= k < |letters| && r.value == DriveRoot(letters[k]) &&
              Eligible(skip, view, DriveRoot(letters[k])) &&
              forall j :: 0 <= j < k ==> !Eligible(skip, view, DriveRoot(letters[j])))
    decreases |letters|
  {
    if letters != [] && !Eligible(skip, view, DriveRoot(letters[0])) {
      var rest := letters[1..];
      FirstMatchIsFirst(rest, skip, view);
      assert forall k :: 1 <= k < |letters| ==> letters[k] == rest[k - 1];
      if FirstMatch(rest, skip, view).Some? {
        var k :| 0 <= k < |rest| && FirstMatch(rest, skip, view).value == DriveRoot(rest[k]) &&
          Eligible(skip, view, DriveRoot(rest[k])) &&
          forall j :: 0 <= j < k ==> !Eligible(skip, view, DriveRoot(rest[j]));
        assert letters[k + 1] == rest[k];
      }
    }
  }

  /** Whatever is returned is eligible under the skip test used. */
  lemma {:induction false} FirstMatchEligible(letters: string, skip: string -> bool, view: DriveView)
    ensures FirstMatch(letters, skip, view).Some? ==> Eligible(skip, view, FirstMatch(letters, skip, view).value)
    decreases |letters|
  {
    if letters != [] && !Eligible(skip, view, DriveRoot(letters[0])) {
      FirstMatchEligible(letters[1..], skip, view);
    }
  }

  // ---------------------------------------------------------------------
  // What the probe returns.
  // ---------------------------------------------------------------------

  /**
   * Under either rule the probe returns a root that exists and holds
   * `sources`, is never `C:\` and never the home drive as HOMEDRIVE spells
   * it; under the intended rule, never the home drive with its backslash.
   */
  lemma NeverSystemOrHome(rule: SkipRule, home: Option<string>, view: DriveView)
    ensures var r := Probe(rule, home, view);
      r.Some? ==>
        && Qualifies(view, r.value)
        && Upper(r.value) != SystemRoot
        && Upper(r.value) != Upper(HomeDrive(home))
        && (rule == Intended ==> Upper(r.value) != Upper(HomeDrive(home)) + "\\")
  {
    FirstMatchEligible(Letters, d => Skips(rule, home, d), view);
  }

  /** A HOMEDRIVE of the form `X:` keeps the intended probe off `X:\`, whatever the letter's case. */
  lemma HomeDriveSkipped(c: char, view: DriveView)
    ensures Probe(Intended, Some([c, ':']), view) != Some(DriveRoot(c))
  {
    NeverSystemOrHome(Intended, Some([c, ':']), view);
    HomeRoot(c);
  }

  /** The root of drive `X` is, upper-cased, the upper-cased `X:` with a backslash. */
  lemma HomeRoot(c: char)
    ensures Upper(DriveRoot(c)) == Upper(HomeDrive(Some([c, ':']))) + "\\"
  {
    assert Upper(DriveRoot(c)) == [UpperChar(c), ':', '\\'];
    assert Upper([c, ':']) + "\\" == [UpperChar(c), ':', '\\'];
  }

  /**
   * As written, the home-drive comparison sets `D:` against `D:\`, so with
   * HOMEDRIVE `D:` a mounted image on `D:\`, the home drive, is returned.
   */
  lemma HomeDriveReturnedAsWritten(home: Option<string>, view: DriveView)
    requires home == Some("D:") && Qualifies(view, "D:\\")
    ensures Probe(AsWritten, home, view) == Some("D:\\")
  {
    var skip := d => Skips(AsWritten, home, d);
    assert Letters[0] == 'C' && Letters[1] == 'D';
    assert Upper(DriveRoot('C')) == SystemRoot;
    assert Upper(DriveRoot('D')) == "D:\\" && Upper("D:") == "D:";
    FirstMatchSecond(Letters, skip, view);
  }

  /** A search whose first letter is not eligible and whose second is stops at the second. */
  lemma FirstMatchSecond(letters: string, skip: string -> bool, view: DriveView)
    requires |letters| >= 2
    requires !Eligible(skip, view, DriveRoot(letters[0])) && Eligible(skip, view, DriveRoot(letters[1]))
    ensures FirstMatch(letters, skip, view) == Some(DriveRoot(letters[1]))
  {
    assert letters[1..][0] == letters[1];
  }

  /**
   * With the intended skip and HOMEDRIVE `D:`, a view where only `D:\`
   * qualifies gives no drive at all.
   */
  lemma HomeDriveNotReturned(home: Option<string>, view: DriveView)
    requires home == Some("D:")
    requires forall c :: Qualifies(view, DriveRoot(c)) ==> c == 'D'
    ensures Probe(Intended, home, view) == None
  {
    var skip := d => Skips(Intended, home, d);
    assert Upper("D:") == "D:";
    assert Upper("D:\\") == "D:\\";
    forall k | 0 <= k < |Letters|
      ensures !Eligible(skip, view, DriveRoot(Letters[k]))
    {
      if k == 1 {
        assert Letters[k] == 'D';
      }
    }
    FirstMatchIsFirst(Letters, skip, view);
  }

  /**
   * The two rules agree when HOMEDRIVE is unset or names the system drive,
   * the usual case: then the written code behaves as intended.
   */
  lemma AgreeOnSystemHome(home: Option<string>, view: DriveView)
    requires home == None || Upper(home.value) == "C:"
    ensures Probe(AsWritten, home, view) == Probe(Intended, home, view)
  {
    forall c | c in Letters
      ensures Skips(AsWritten, home, DriveRoot(c)) == Skips(Intended, home, DriveRoot(c))
    {
      assert Upper("") == "";
    }
    FirstMatchSame(Letters, d => Skips(AsWritten, home, d), d => Skips(Intended, home, d), view);
  }

  /** Two skip tests that agree on every probed root give the same search. */
  lemma {:induction false} FirstMatchSame(letters: string, s1: string -> bool, s2: string -> bool, view: DriveView)
    requires forall k :: 0 <= k < |letters| ==> s1(DriveRoot(letters[k])) == s2(DriveRoot(letters[k]))
    ensures FirstMatch(letters, s1, view) == FirstMatch(letters, s2, view)
    decreases |letters|
  {
    if letters != [] {
      assert s1(DriveRoot(letters[0])) == s2(DriveRoot(letters[0]));
      assert forall k :: 1 <= k < |letters| ==> letters[1..][k - 1] == letters[k];
      FirstMatchSame(letters[1..], s1, s2, view);
    }
  }
}
