/** Where the caption text of a reel comes from: a sentence picked from the
    topic's prompt pool, or the user's own script, wrapped to 70 columns. */
module Content {
  import opened Text
  import opened TextWrap

  /** The column width captions are wrapped to. */
  const Width: nat := 70

  /** The four topics that have a prompt pool of their own. */
  predicate Known(topic: string) {
    topic == "motivation" || topic == "healing" || topic == "self-love" || topic == "spirituality"
  }

  const MotivationPrompts: seq<string> := [
    "Every step you take is progress. Keep going!",
    "Your only limit is you. Break it today!",
    "Dream big. Start now. Stay consistent."
  ]

  // The two sentences written as two literals joined by `+` are single
  // sentences in the app; the split keeps each literal short, which keeps
  // the proofs about them cheap.
  const HealingPrompts: seq<string> := [
    "Healing isn\U{2019}t linear, " + "but every moment counts.",
    "Breathe. Accept. Let go. Grow.",
    "You\U{2019}re allowed to rest and recover."
  ]

  const SelfLovePrompts: seq<string> := [
    "You are enough just as you are.",
    "Fall in love with taking care of yourself.",
    "Your worth is not up for debate."
  ]

  const SpiritualityPrompts: seq<string> := [
    "You are more than this moment. " + "Trust the flow.",
    "The answers lie within your stillness.",
    "The universe responds to your energy."
  ]

  /** The one sentence offered for a topic that has no pool. */
  function Placeholder(topic: string): (r: string)
    ensures |r| == |topic| + 36
    ensures r[..35] == "This is a placeholder script about " && r[35..|r| - 1] == topic
    ensures r[|r| - 1] == '.'
  {
    "This is a placeholder script about " + topic + "."
  }

  /** `prompts.get(topic, [placeholder])`: the sentences a pick is made
      from, three for a known topic and the placeholder alone otherwise. */
  function Pool(topic: string): (pool: seq<string>)
    ensures Known(topic) ==> |pool| == 3
    ensures !Known(topic) ==> pool == [Placeholder(topic)]
  {
    if topic == "motivation" then MotivationPrompts
    else if topic == "healing" then HealingPrompts
    else if topic == "self-love" then SelfLovePrompts
    else if topic == "spirituality" then SpiritualityPrompts
    else [Placeholder(topic)]
  }

  /** `ai_generate_script(topic)`, with the random choice made by the caller
      as the index `pick` into the pool: a known topic gives one of its own
      sentences, any other topic gives the placeholder sentence naming it. */
  function AiGenerateScript(topic: string, pick: nat): (r: string)
    requires pick < |Pool(topic)|
    ensures r in Pool(topic)
    ensures Known(topic) ==> FitsOneLine(r, Width)
    ensures !Known(topic) ==> r == "This is a placeholder script about " + topic + "."
  {
    var r := Pool(topic)[pick];
    if Known(topic) then PromptsFit(topic, r); r else r
  }

  /** Each sentence of a pool can be picked. */
  lemma EveryPromptReachable(topic: string, sentence: string)
    requires Known(topic) && sentence in Pool(topic)
    ensures exists pick: nat :: pick < |Pool(topic)| && AiGenerateScript(topic, pick) == sentence
  {
    var pick :| 0 <= pick < |Pool(topic)| && Pool(topic)[pick] == sentence;
    assert AiGenerateScript(topic, pick) == sentence;
  }

  /** The script before wrapping: a custom script that is not empty wins and is
      stripped, whatever the topic, so one of only whitespace gives the empty
      script; an empty custom script leaves the choice to the pool. */
  function ScriptSource(topic: string, customScript: string, pick: nat): (r: string)
    requires customScript == [] ==> pick < |Pool(topic)|
    ensures customScript != [] ==> Trimmed(customScript, r)
    ensures customScript != [] ==> NonSpace(r) == NonSpace(customScript)
    ensures customScript != [] ==> (r == [] <==> AllSpace(customScript))
    ensures customScript != [] && r != [] ==> !IsSpace(r[0]) && !IsSpace(r[|r| - 1])
    ensures customScript == [] && Known(topic) ==> r in Pool(topic) && FitsOneLine(r, Width)
    ensures customScript == [] && !Known(topic) ==> r == Placeholder(topic)
  {
    if customScript != [] then
      var r := Strip(customScript);
      assert r == [] || (!IsSpace(r[0]) && !IsSpace(r[|r| - 1]));
      r
    else
      var r := AiGenerateScript(topic, pick);
      assert Known(topic) ==> r in Pool(topic) && FitsOneLine(r, Width);
      r
  }

  /** `generate_script(topic, custom_script)`: the script, filled to 70
      columns. Every line is at most 70 characters; the lines are pieces of
      the script, in order, with only whitespace between them; a script that
      fits on one line, as every pool sentence does, is shown as written. */
  method GenerateScript(topic: string, customScript: string, pick: nat) returns (text: string)
    requires customScript == [] ==> pick < |Pool(topic)|
    ensures forall k :: 0 <= k < |SplitOn(text, '\n')| ==> |SplitOn(text, '\n')[k]| <= Width
    ensures NonSpace(text) == NonSpace(ScriptSource(topic, customScript, pick))
    ensures Separated(Munge(ScriptSource(topic, customScript, pick)), SplitOn(text, '\n'), Width)
    ensures FitsOneLine(ScriptSource(topic, customScript, pick), Width) ==> text == ScriptSource(topic, customScript, pick)
    ensures customScript != [] ==> NonSpace(text) == NonSpace(customScript)
    ensures customScript != [] && AllSpace(customScript) ==> text == []
    ensures customScript == [] && Known(topic) ==> text in Pool(topic) && '\n' !in text
  {
    var script := ScriptSource(topic, customScript, pick);
    text := Fill(script, Width);
  }

  /** Every pool sentence already fits on one caption line, so filling leaves
      it as it is. */
  lemma PromptsFit(topic: string, sentence: string)
    requires Known(topic) && sentence in Pool(topic)
    ensures FitsOneLine(sentence, Width)
  {
    if topic == "motivation" {
      MotivationFit();
    } else if topic == "healing" {
      HealingFit();
    } else if topic == "self-love" {
      SelfLoveFit();
    } else {
      SpiritualityFit();
    }
  }

  lemma MotivationFit()
    ensures forall s | s in MotivationPrompts :: FitsOneLine(s, Width)
  {
    MotivationPlain0(); MotivationPlain1(); MotivationPlain2();
  }

  lemma HealingFit()
    ensures forall s | s in HealingPrompts :: FitsOneLine(s, Width)
  {
    HealingPlain0(); HealingPlain1(); HealingPlain2();
  }

  lemma SelfLoveFit()
    ensures forall s | s in SelfLovePrompts :: FitsOneLine(s, Width)
  {
    SelfLovePlain0(); SelfLovePlain1(); SelfLovePlain2();
  }

  lemma SpiritualityFit()
    ensures forall s | s in SpiritualityPrompts :: FitsOneLine(s, Width)
  {
    SpiritualityPlain0(); SpiritualityPlain1(); SpiritualityPlain2();
  }

  // Each sentence holds no tab, line feed, vertical tab, form feed or
  // carriage return; the split sentences are joined as in the pools above.
  lemma MotivationPlain0() ensures forall c | c in "Every step you take is progress. Keep going!" :: !('\t' <= c <= '\r') {}
  lemma MotivationPlain1() ensures forall c | c in "Your only limit is you. Break it today!" :: !('\t' <= c <= '\r') {}
  lemma MotivationPlain2() ensures forall c | c in "Dream big. Start now. Stay consistent." :: !('\t' <= c <= '\r') {}
  lemma HealingPlain0() ensures forall c | c in "Healing isn\U{2019}t linear, " + "but every moment counts." :: !('\t' <= c <= '\r') {}
  lemma HealingPlain1() ensures forall c | c in "Breathe. Accept. Let go. Grow." :: !('\t' <= c <= '\r') {}
  lemma HealingPlain2() ensures forall c | c in "You\U{2019}re allowed to rest and recover." :: !('\t' <= c <= '\r') {}
  lemma SelfLovePlain0() ensures forall c | c in "You are enough just as you are." :: !('\t' <= c <= '\r') {}
  lemma SelfLovePlain1() ensures forall c | c in "Fall in love with taking care of yourself." :: !('\t' <= c <= '\r') {}
  lemma SelfLovePlain2() ensures forall c | c in "Your worth is not up for debate." :: !('\t' <= c <= '\r') {}
  lemma SpiritualityPlain0() ensures forall c | c in "You are more than this moment. " + "Trust the flow." :: !('\t' <= c <= '\r') {}
  lemma SpiritualityPlain1() ensures forall c | c in "The answers lie within your stillness." :: !('\t' <= c <= '\r') {}
  lemma SpiritualityPlain2() ensures forall c | c in "The universe responds to your energy." :: !('\t' <= c <= '\r') {}
}
