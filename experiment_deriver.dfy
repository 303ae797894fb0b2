/**
 * Derivation of experiment records from executed content: a keyword test on
 * the lower-cased content, and a fixed-template record put at the front of
 * the experiment list.
 */
module ExperimentDeriver {
  import opened Types
  import opened Text

  const Keyword: string := "train"
  const TemplateName: string := "Manual Training Session"
  const IdPrefix: string := "exp-"

  /** `content.toLowerCase().includes('train')`. */
  predicate MentionsTraining(content: string)
  {
    Contains(Lower(content), Keyword)
  }

  /**
   * The record a qualifying execution creates. Its id is `exp-` followed by
   * the clock reading taken for the id, its timestamp a second clock reading.
   */
  function NewExperiment(idClock: nat, stampClock: int): (e: Experiment)
    ensures e.name == TemplateName && e.status == Running
    ensures e.metrics == Metrics(0.0, 1.0, 0)
    ensures e.timestamp == stampClock
    ensures IsPrefix(IdPrefix, e.id) && e.id[|IdPrefix|..] == NatToString(idClock)
    ensures forall i :: |IdPrefix| <= i < |e.id| ==> IsDigit(e.id[i])
    ensures ParseDigits(e.id[|IdPrefix|..]) == idClock
  {
    ParseNatToString(idClock);
    var id := IdPrefix + NatToString(idClock);
    assert id[|IdPrefix|..] == NatToString(idClock);
    Experiment(id, TemplateName, Running, Metrics(0.0, 1.0, 0), stampClock)
  }

  /** The `setExperiments(prev => [record, ...prev])` branch taken after an execution. */
  function Derive(content: string, experiments: seq<Experiment>, idClock: nat, stampClock: int): (r: seq<Experiment>)
    ensures MentionsTraining(content) ==> |r| == |experiments| + 1 && r[1..] == experiments
    ensures MentionsTraining(content) ==> r[0] == NewExperiment(idClock, stampClock)
    ensures MentionsTraining(content) ==> r[0].name == TemplateName && r[0].status == Running && r[0].metrics == Metrics(0.0, 1.0, 0)
    ensures !MentionsTraining(content) ==> r == experiments
  {
    if MentionsTraining(content) then [NewExperiment(idClock, stampClock)] + experiments else experiments
  }

  /** At index `i` of `s` the keyword is spelled out, each letter either in lower case or in capitals. */
  ghost predicate KeywordAtIgnoringCase(s: string, i: int)
  {
    0 <= i && i + |Keyword| <= |s|
    && forall k :: 0 <= k < |Keyword| ==>
         s[i + k] == Keyword[k] || s[i + k] as int == Keyword[k] as int - ('a' as int - 'A' as int)
  }

  /** The keyword test holds exactly when the keyword occurs somewhere, in any mix of letter case. */
  lemma MentionsTrainingIgnoresCase(content: string)
    ensures MentionsTraining(content) <==> exists i :: KeywordAtIgnoringCase(content, i)
  {
    var low := Lower(content);
    ContainsIffOccurs(low, Keyword);
    forall i ensures OccursAt(low, Keyword, i) <==> KeywordAtIgnoringCase(content, i) {
      if 0 <= i && i + |Keyword| <= |content| {
        forall k | 0 <= k < |Keyword|
          ensures (low[i + k] == Keyword[k]) <==>
            (content[i + k] == Keyword[k] || content[i + k] as int == Keyword[k] as int - ('a' as int - 'A' as int))
        {
          assert 'a' <= Keyword[k] <= 'z';
        }
        assert OccursAt(low, Keyword, i) <==> forall k :: 0 <= k < |Keyword| ==> low[i..i + |Keyword|][k] == Keyword[k];
      }
    }
  }

  /** The keyword may appear anywhere in the content. */
  lemma MentionsTrainingAnywhere(before: string, content: string, after: string)
    requires MentionsTraining(content)
    ensures MentionsTraining(before + content + after)
  {
    LowerAppend(before, content);
    LowerAppend(before + content, after);
    ContainsExtend(Lower(before), Lower(content), Lower(after), Keyword);
  }

  /** The keyword in capitals, inside a call, is found. */
  lemma MentionsTrainingUpperCase()
    ensures MentionsTraining("model.TRAIN()")
  {
    var s := "model.TRAIN()";
    forall i | 0 <= i < |s| ensures Lower(s)[i] == ("model." + Keyword + "()")[i] {
    }
    assert Lower(s) == "model." + Keyword + "()";
    assert Contains(Keyword, Keyword);
    ContainsExtend("model.", Keyword, "()", Keyword);
  }

  /** Content without the keyword, such as a plain print, is not a training session. */
  lemma PlainPrintIsNotTraining()
    ensures !MentionsTraining("print('hi')")
  {
    var t := "print('hi')";
    MentionsTrainingIgnoresCase(t);
    forall i | 0 <= i <= |t| - |Keyword| ensures !KeywordAtIgnoringCase(t, i) {
      var k := if i == 4 then 1 else 0;
      assert t[i + k] != Keyword[k] && t[i + k] as int != Keyword[k] as int - ('a' as int - 'A' as int);
    }
  }

  /** There is no de-duplication: every qualifying execution puts one more record in front. */
  lemma DeriveRepeats(content: string, experiments: seq<Experiment>, id1: nat, stamp1: int, id2: nat, stamp2: int)
    requires MentionsTraining(content)
    ensures Derive(content, Derive(content, experiments, id1, stamp1), id2, stamp2)
      == [NewExperiment(id2, stamp2), NewExperiment(id1, stamp1)] + experiments
  {
  }

  /** Two derived records share an id exactly when their id clock readings are equal. */
  lemma ExperimentIdsCollideIffSameClock(id1: nat, stamp1: int, id2: nat, stamp2: int)
    ensures NewExperiment(id1, stamp1).id == NewExperiment(id2, stamp2).id <==> id1 == id2
  {
    if NewExperiment(id1, stamp1).id == NewExperiment(id2, stamp2).id {
      assert NatToString(id1) == NewExperiment(id1, stamp1).id[|IdPrefix|..];
      assert NatToString(id2) == NewExperiment(id2, stamp2).id[|IdPrefix|..];
      NatToStringInjective(id1, id2);
    }
  }
}
