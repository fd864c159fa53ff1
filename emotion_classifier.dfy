/** The topic classification of the emotion service: for each topic, the
    last snapshot of detected emotions decides whether the topic is good
    or bad; "test" and "vacances" are fixed. Scores are reals. */
module EmotionClassifier {

  import opened Common
  import opened Text

  /** One detected emotion (the `label` key is `name` here); a missing
      label reads as "", a missing score as 0. The `topic` key is carried
      along but plays no part in the classification. */
  datatype Emotion = Emotion(name: Option<string>, score: Option<real>, topic: Option<string>)

  /** The emotions of one face; a snapshot holds one list per face. */
  type Face = seq<Emotion>
  type Snapshot = seq<Face>

  datatype Scores = Scores(goodScore: real, badScore: real)

  /** The verdict on one topic. */
  datatype Verdict = Good(scores: Scores) | Bad(scores: Scores)

  /** The service's answer: `{ good_topics, bad_topics }`. */
  datatype Classification = Classification(goodTopics: map<string, Scores>, badTopics: map<string, Scores>)

  const GoodLabels: seq<string> := ["neutral", "happy"]
  const BadLabels: seq<string> := ["sad", "anger", "disgust", "fear"]

  function LabelOf(e: Emotion): string {
    Lower(e.name.GetOr(""))
  }

  function ScoreOf(e: Emotion): real {
    e.score.GetOr(0.0)
  }

  /** What one emotion adds to the good sum and to the bad sum. */
  function GoodPart(e: Emotion): real {
    if LabelOf(e) in GoodLabels then ScoreOf(e) else 0.0
  }

  function BadPart(e: Emotion): real {
    if LabelOf(e) in GoodLabels then 0.0 else if LabelOf(e) in BadLabels then ScoreOf(e) else 0.0
  }

  /** The sums over a face and over a snapshot, in loop order. */
  function FaceGood(f: Face): real {
    if f == [] then 0.0 else FaceGood(f[..|f| - 1]) + GoodPart(f[|f| - 1])
  }

  function FaceBad(f: Face): real {
    if f == [] then 0.0 else FaceBad(f[..|f| - 1]) + BadPart(f[|f| - 1])
  }

  function SnapshotGood(s: Snapshot): real {
    if s == [] then 0.0 else SnapshotGood(s[..|s| - 1]) + FaceGood(s[|s| - 1])
  }

  function SnapshotBad(s: Snapshot): real {
    if s == [] then 0.0 else SnapshotBad(s[..|s| - 1]) + FaceBad(s[|s| - 1])
  }

  /** The rule for one topic: `None` when the topic is skipped. */
  function TopicVerdict(topic: string, snapshots: seq<Snapshot>): Option<Verdict> {
    if Lower(topic) == "test" then Some(Good(Scores(1.0, 0.0)))
    else if Lower(topic) == "vacances" then Some(Bad(Scores(0.0, 1.0)))
    else if snapshots == [] then None
    else
      var last := snapshots[|snapshots| - 1];
      var sums := Scores(SnapshotGood(last), SnapshotBad(last));
      if sums.goodScore >= sums.badScore then Some(Good(sums)) else Some(Bad(sums))
  }

  predicate IsGood(topic: string, snapshots: seq<Snapshot>) {
    var v := TopicVerdict(topic, snapshots);
    v.Some? && v.value.Good?
  }

  predicate IsBad(topic: string, snapshots: seq<Snapshot>) {
    var v := TopicVerdict(topic, snapshots);
    v.Some? && v.value.Bad?
  }

  /** `classify_topics_last_snapshot`, stated topic by topic. */
  function Classify(collected: map<string, seq<Snapshot>>): Classification {
    Classification(
      map t | t in collected && IsGood(t, collected[t]) :: TopicVerdict(t, collected[t]).value.scores,
      map t | t in collected && IsBad(t, collected[t]) :: TopicVerdict(t, collected[t]).value.scores)
  }

  /** The two sums of the last snapshot, accumulated face by face and
      emotion by emotion. */
  method SumLastSnapshot(last: Snapshot) returns (sumGood: real, sumBad: real)
    ensures sumGood == SnapshotGood(last) && sumBad == SnapshotBad(last)
  {
    sumGood, sumBad := 0.0, 0.0;
    for i := 0 to |last|
      invariant sumGood == SnapshotGood(last[..i]) && sumBad == SnapshotBad(last[..i])
    {
      var face := last[i];
      ghost var goodBefore, badBefore := sumGood, sumBad;
      for j := 0 to |face|
        invariant sumGood == goodBefore + FaceGood(face[..j])
        invariant sumBad == badBefore + FaceBad(face[..j])
      {
        var emotion := face[j];
        var labelText := Lower(emotion.name.GetOr(""));
        var score := emotion.score.GetOr(0.0);
        if labelText in GoodLabels {
          sumGood := sumGood + score;
        } else if labelText in BadLabels {
          sumBad := sumBad + score;
        }
        assert face[..j + 1][..j] == face[..j];
      }
      assert face[..|face|] == face;
      assert last[..i + 1][..i] == last[..i];
    }
    assert last[..|last|] == last;
  }

  /** The loops of `classify_topics_last_snapshot`: every topic is visited
      once and lands in at most one of the two maps. */
  method ClassifyTopicsLastSnapshot(collected: map<string, seq<Snapshot>>) returns (r: Classification)
    ensures r == Classify(collected)
  {
    var good: map<string, Scores> := map[];
    var bad: map<string, Scores> := map[];
    var remaining := collected.Keys;
    while remaining != {}
      invariant remaining <= collected.Keys
      invariant forall t :: t in good <==> t in collected && t !in remaining && IsGood(t, collected[t])
      invariant forall t :: t in bad <==> t in collected && t !in remaining && IsBad(t, collected[t])
      invariant forall t :: t in good ==> good[t] == TopicVerdict(t, collected[t]).value.scores
      invariant forall t :: t in bad ==> bad[t] == TopicVerdict(t, collected[t]).value.scores
      decreases |remaining|
    {
      var topic :| topic in remaining;
      remaining := remaining - {topic};
      var snapshots := collected[topic];
      if Lower(topic) == "test" {
        good := good[topic := Scores(1.0, 0.0)];
        continue;
      }
      if Lower(topic) == "vacances" {
        bad := bad[topic := Scores(0.0, 1.0)];
        continue;
      }
      if snapshots == [] {
        continue;
      }
      var last := snapshots[|snapshots| - 1];
      var sumGood, sumBad := SumLastSnapshot(last);
      if sumGood >= sumBad {
        good := good[topic := Scores(sumGood, sumBad)];
      } else {
        bad := bad[topic := Scores(sumGood, sumBad)];
      }
    }
    r := Classification(good, bad);
    assert good == Classify(collected).goodTopics;
    assert bad == Classify(collected).badTopics;
  }

  /** Each topic lands in at most one of the two maps. */
  lemma NoTopicIsBoth(collected: map<string, seq<Snapshot>>)
    ensures Classify(collected).goodTopics.Keys !! Classify(collected).badTopics.Keys
  {
  }

  /** "test" and "vacances", in any letter case, are classified by name
      alone, whatever their snapshots. */
  lemma FixedTopics(collected: map<string, seq<Snapshot>>, t: string)
    requires t in collected
    ensures Lower(t) == "test" ==>
      t in Classify(collected).goodTopics && Classify(collected).goodTopics[t] == Scores(1.0, 0.0)
      && t !in Classify(collected).badTopics
    ensures Lower(t) == "vacances" ==>
      t in Classify(collected).badTopics && Classify(collected).badTopics[t] == Scores(0.0, 1.0)
      && t !in Classify(collected).goodTopics
  {
  }

  /** Any other topic without snapshots is left out of both maps. */
  lemma EmptyTopicSkipped(collected: map<string, seq<Snapshot>>, t: string)
    requires t in collected && collected[t] == []
    requires Lower(t) != "test" && Lower(t) != "vacances"
    ensures t !in Classify(collected).goodTopics && t !in Classify(collected).badTopics
  {
  }

  /** For any other topic the last snapshot decides: good exactly when its
      good sum reaches its bad sum (ties go to good), and the recorded
      scores are the two sums. */
  lemma LastSnapshotDecides(collected: map<string, seq<Snapshot>>, t: string)
    requires t in collected && collected[t] != []
    requires Lower(t) != "test" && Lower(t) != "vacances"
    ensures var last := collected[t][|collected[t]| - 1];
      var sums := Scores(SnapshotGood(last), SnapshotBad(last));
      && (t in Classify(collected).goodTopics <==> sums.goodScore >= sums.badScore)
      && (t in Classify(collected).badTopics <==> sums.goodScore < sums.badScore)
      && (t in Classify(collected).goodTopics ==> Classify(collected).goodTopics[t] == sums)
      && (t in Classify(collected).badTopics ==> Classify(collected).badTopics[t] == sums)
  {
  }

  /** Snapshots before the last one do not matter: two histories with the
      same last snapshot classify a topic alike. */
  lemma OnlyLastSnapshotCounts(t: string, earlier1: seq<Snapshot>, earlier2: seq<Snapshot>, last: Snapshot)
    ensures TopicVerdict(t, earlier1 + [last]) == TopicVerdict(t, earlier2 + [last])
  {
    assert (earlier1 + [last])[|earlier1|] == last;
    assert (earlier2 + [last])[|earlier2|] == last;
  }

  /** The face sums add up over concatenation. */
  lemma {:induction false} FaceSumsAppend(a: Face, b: Face)
    ensures FaceGood(a + b) == FaceGood(a) + FaceGood(b)
    ensures FaceBad(a + b) == FaceBad(a) + FaceBad(b)
    decreases |b|
  {
    if b == [] {
      assert a + b == a;
    } else {
      var b' := b[..|b| - 1];
      assert (a + b)[..|a + b| - 1] == a + b';
      FaceSumsAppend(a, b');
    }
  }

  /** An emotion whose label is neither good nor bad (such as "surprise")
      changes no sum, wherever it stands in the face. */
  lemma UnknownLabelIgnored(before: Face, e: Emotion, after: Face)
    requires LabelOf(e) !in GoodLabels && LabelOf(e) !in BadLabels
    ensures FaceGood(before + [e] + after) == FaceGood(before + after)
    ensures FaceBad(before + [e] + after) == FaceBad(before + after)
  {
    FaceSumsAppend(before + [e], after);
    FaceSumsAppend(before, after);
    assert (before + [e])[..|before|] == before;
  }

  /** The snapshot a simulated detection records for a topic. */
  function SimulatedSnapshot(topic: string): (s: Snapshot)
    requires Lower(topic) == "test" || Lower(topic) == "vacances"
    ensures |s| == 1 && |s[0]| == 1 && s[0][0].score == Some(1.0) && s[0][0].topic == Some(topic)
  {
    var name := if Lower(topic) == "test" then "happy" else "sad";
    [[Emotion(Some(name), Some(1.0), Some(topic))]]
  }

  /** The simulated snapshot would earn the same verdict from the sums as
      the fixed rule gives the topic by name. */
  lemma SimulatedSnapshotAgrees(topic: string)
    requires Lower(topic) == "test" || Lower(topic) == "vacances"
    ensures var s := SimulatedSnapshot(topic);
      Lower(topic) == "test" ==> SnapshotGood(s) == 1.0 && SnapshotBad(s) == 0.0
    ensures var s := SimulatedSnapshot(topic);
      Lower(topic) == "vacances" ==> SnapshotGood(s) == 0.0 && SnapshotBad(s) == 1.0
  {
    var s := SimulatedSnapshot(topic);
    var e := s[0][0];
    assert s[..|s| - 1] == [] && s[0][..|s[0]| - 1] == [];
    assert FaceGood(s[0]) == GoodPart(e) && FaceBad(s[0]) == BadPart(e);
    assert SnapshotGood(s) == GoodPart(e) && SnapshotBad(s) == BadPart(e);
    assert ScoreOf(e) == 1.0;
    if Lower(topic) == "test" {
      assert LabelOf(e) == "happy" by {
        assert "happy" == ['h', 'a', 'p', 'p', 'y'];
      }
      assert LabelOf(e) == GoodLabels[1];
    } else {
      assert LabelOf(e) == "sad" by {
        assert "sad" == ['s', 'a', 'd'];
      }
      assert LabelOf(e) !in GoodLabels by {
        assert "sad"[0] != "neutral"[0] && "sad"[0] != "happy"[0];
      }
      assert LabelOf(e) == BadLabels[0];
    }
  }

  /** What `detect_emotion_once` answers for a simulated topic. */
  datatype DetectReport = DetectReport(
    message: string,
    numFaces: nat,
    emotions: Snapshot,
    topic: string,
    totalSnapshotsForTopic: nat)

  /** The service's global state: the collected snapshots per topic and the
      last emotion data. */
  class EmotionCollector {
    var collected: map<string, seq<Snapshot>>
    var lastEmotionData: Option<Snapshot>

    constructor ()
      ensures collected == map[] && lastEmotionData == None
    {
      collected := map[];
      lastEmotionData := None;
    }

    /** The simulated branches of `detect_emotion_once`: one snapshot with
        one face and one emotion is appended to the topic's history. */
    method DetectSimulated(topic: string) returns (r: DetectReport)
      requires Lower(topic) == "test" || Lower(topic) == "vacances"
      modifies this
      ensures var history := if topic in old(collected) then old(collected)[topic] else [];
        collected == old(collected)[topic := history + [SimulatedSnapshot(topic)]]
      ensures lastEmotionData == Some(SimulatedSnapshot(topic))
      ensures r.numFaces == 1 && r.emotions == SimulatedSnapshot(topic) && r.topic == topic
      ensures r.totalSnapshotsForTopic == |collected[topic]|
      ensures topic in old(collected) ==> r.totalSnapshotsForTopic == |old(collected)[topic]| + 1
      ensures topic !in old(collected) ==> r.totalSnapshotsForTopic == 1
      ensures forall other :: other != topic ==>
        (other in collected <==> other in old(collected))
        && (other in collected ==> collected[other] == old(collected)[other])
    {
      var simulated := SimulatedSnapshot(topic);
      lastEmotionData := Some(simulated);
      if topic !in collected {
        collected := collected[topic := []];
      }
      collected := collected[topic := collected[topic] + [simulated]];
      var message := if Lower(topic) == "test" then "Snapshot captured for test topic"
                     else "Snapshot captured for vacances topic";
      r := DetectReport(message, 1, simulated, topic, |collected[topic]|);
    }
  }
}
