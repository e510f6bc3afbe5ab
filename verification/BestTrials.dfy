/** Keeping the best of the settings that were tried, as every calibration loop does. */
module BestTrials {

  /** One measured setting and its distance to the target. */
  datatype Trial<+S> = Trial(setting: S, distance: real)

  /** b is the first of the closest trials. */
  ghost predicate IsFirstBest<S>(b: Trial<S>, trials: seq<Trial<S>>) {
    exists k :: 0 <= k < |trials| && trials[k] == b
      && (forall j :: 0 <= j < |trials| ==> b.distance <= trials[j].distance)
      && (forall j :: 0 <= j < k ==> b.distance < trials[j].distance)
  }

  lemma BaselineIsBest<S>(b: Trial<S>)
    ensures IsFirstBest(b, [b])
  {
    assert [b][0] == b;
  }

  /** Replacing the best only by a strictly closer trial keeps it the first of the closest. */
  lemma KeepBest<S>(b: Trial<S>, trials: seq<Trial<S>>, t: Trial<S>)
    requires IsFirstBest(b, trials)
    ensures IsFirstBest(if t.distance < b.distance then t else b, trials + [t])
  {
    var k :| 0 <= k < |trials| && trials[k] == b
      && (forall j :: 0 <= j < |trials| ==> b.distance <= trials[j].distance)
      && (forall j :: 0 <= j < k ==> b.distance < trials[j].distance);
    var all := trials + [t];
    if t.distance < b.distance {
      assert all[|trials|] == t;
    } else {
      assert all[k] == b;
    }
  }

  /** The first of the closest is unique, and never farther than the first trial. */
  lemma FirstBestIsUnique<S>(a: Trial<S>, b: Trial<S>, trials: seq<Trial<S>>)
    requires IsFirstBest(a, trials) && IsFirstBest(b, trials)
    ensures a == b && a.distance <= trials[0].distance
  {
  }
}
