/** Which package a published release binds for a browser. */
module ReleaseArtifact {
  import opened Prelude
  import opened Store1Types
  import opened TransitionTypes

  predicate Distinct<T(==)>(values: seq<T>) {
    forall i, j | 0 <= i < j < |values| :: values[i] != values[j]
  }

  function Families(rows: seq<BrowserArtifact>): (families: seq<Browser>)
    ensures |families| == |rows| && forall i | 0 <= i < |rows| :: families[i] == rows[i].browser
  {
    seq(|rows|, i requires 0 <= i < |rows| => rows[i].browser)
  }

  /** The first row of a browser, or the number of rows. */
  function FindRow(rows: seq<BrowserArtifact>, browser: Browser): (i: nat)
    ensures i <= |rows|
    ensures i < |rows| ==> rows[i].browser == browser
    ensures forall j | 0 <= j < i :: rows[j].browser != browser
  {
    if rows == [] || rows[0].browser == browser then 0 else 1 + FindRow(rows[1..], browser)
  }

  /** `classifyReleaseArtifact` */
  function Classify(r: TransitionRelease, browser: Browser): Result<Artifact> {
    if r.rows.None? then Err("RELEASE_ARTIFACT_MODE_UNAVAILABLE")
    else
      var rows, supported := r.rows.value, r.release.browsers;
      var families := Families(rows);
      if
        || !Distinct(families) || !Distinct(supported) || |families| != |supported|
        || exists b | b in supported :: b !in families
      then Err("RELEASE_ARTIFACT_BROWSER_SET_INVALID")
      else if r.release.artifact.Some? then
        if exists row | row in rows :: row.artifact.Some? then Err("RELEASE_ARTIFACT_MODE_MIXED")
        else if !IsHash(r.release.artifact.value) then Err("RELEASE_ARTIFACT_DIGEST_INVALID")
        else Ok(r.release.artifact.value)
      else if exists row | row in rows :: row.artifact.Some? && !IsHash(row.artifact.value) then
        Err("RELEASE_ARTIFACT_DIGEST_INVALID")
      else if forall row | row in rows :: row.artifact.None? then Err("RELEASE_ARTIFACT_UNBOUND")
      else if exists row | row in rows :: row.artifact.None? then Err("RELEASE_ARTIFACT_BROWSER_SET_PARTIAL")
      else
        var i := FindRow(rows, browser);
        if i == |rows| then Err("RELEASE_BROWSER_UNSUPPORTED") else Ok(rows[i].artifact.value)
  }

  ghost function Elements<T>(values: seq<T>): set<T> {
    set v | v in values
  }

  lemma {:induction false} DistinctSize<T>(values: seq<T>)
    requires Distinct(values)
    ensures |Elements(values)| == |values|
  {
    if values != [] {
      DistinctSize(values[1..]);
      assert Elements(values) == {values[0]} + Elements(values[1..]);
      assert values[0] !in values[1..];
    }
  }

  lemma SubsetOfSameSize<T>(a: set<T>, b: set<T>)
    requires a <= b && |a| == |b|
    ensures a == b
  {
    assert |b - a| == |b| - |a|;
  }

  /**
   * Without repetitions, the same length and one inclusion are enough: a row belongs to a supported
   * browser exactly when a supported browser has a row.
   */
  lemma SameBrowsers<T>(families: seq<T>, supported: seq<T>)
    requires Distinct(families) && Distinct(supported) && |families| == |supported|
    ensures (forall b | b in supported :: b in families) <==> Elements(families) == Elements(supported)
  {
    DistinctSize(families);
    DistinctSize(supported);
    if forall b | b in supported :: b in families {
      SubsetOfSameSize(Elements(supported), Elements(families));
    }
    assert forall b :: b in supported <==> b in Elements(supported);
    assert forall b :: b in families <==> b in Elements(families);
  }

  /** Every supported browser has exactly one row, and no other browser has one. */
  ghost predicate RowsCover(r: TransitionRelease) {
    && r.rows.Some?
    && Distinct(Families(r.rows.value)) && Distinct(r.release.browsers)
    && Elements(Families(r.rows.value)) == Elements(r.release.browsers)
  }

  /** One valid digest for all browsers and none of their own. */
  ghost predicate SharedMode(r: TransitionRelease, artifact: Artifact) {
    && r.rows.Some? && r.release.artifact == Some(artifact) && IsHash(artifact)
    && forall row | row in r.rows.value :: row.artifact.None?
  }

  /** A valid digest for each browser and none for all. */
  ghost predicate OwnMode(r: TransitionRelease, browser: Browser, artifact: Artifact) {
    && r.rows.Some? && r.release.artifact.None?
    && (forall row | row in r.rows.value :: row.artifact.Some? && IsHash(row.artifact.value))
    && BrowserArtifact(browser, Some(artifact)) in r.rows.value
  }

  lemma CoverNeedsSameLength(r: TransitionRelease)
    requires RowsCover(r)
    ensures |Families(r.rows.value)| == |r.release.browsers|
  {
    DistinctSize(Families(r.rows.value));
    DistinctSize(r.release.browsers);
  }

  lemma RowOfBrowser(rows: seq<BrowserArtifact>, browser: Browser, artifact: Artifact)
    requires Distinct(Families(rows))
    ensures BrowserArtifact(browser, Some(artifact)) in rows <==>
              FindRow(rows, browser) < |rows| && rows[FindRow(rows, browser)].artifact == Some(artifact)
  {
    if BrowserArtifact(browser, Some(artifact)) in rows {
      var k :| 0 <= k < |rows| && rows[k] == BrowserArtifact(browser, Some(artifact));
      var i := FindRow(rows, browser);
      assert i <= k;
      assert Families(rows)[i] == Families(rows)[k];
    }
  }

  /** Classification succeeds, with a given digest, exactly in the two pure digest modes. */
  lemma ClassifiedExactly(r: TransitionRelease, browser: Browser, artifact: Artifact)
    ensures Classify(r, browser) == Ok(artifact) <==>
              RowsCover(r) && (SharedMode(r, artifact) || OwnMode(r, browser, artifact))
  {
    if r.rows.Some? {
      var families, supported := Families(r.rows.value), r.release.browsers;
      if Distinct(families) && Distinct(supported) {
        if |families| == |supported| {
          SameBrowsers(families, supported);
        } else if RowsCover(r) {
          CoverNeedsSameLength(r);
        }
        RowOfBrowser(r.rows.value, browser, artifact);
      }
    }
  }
}
