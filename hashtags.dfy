/** The hashtags offered with a reel: five that every reel gets, with the
    topic's own tag third, and two more for the topics that have them. */
module Hashtags {

  /** The tags every reel gets, whatever its topic. */
  function BaseTags(topic: string): (tags: seq<string>)
    ensures |tags| == 5 && |tags[2]| == |topic| + 1 && tags[2][0] == '#' && tags[2][1..] == topic
  {
    ["#reels", "#explore", "#" + topic, "#viral", "#shorts"]
  }

  /** The table of topic-specific tags appended after the base list. */
  function ExtraTags(topic: string): (tags: seq<string>)
    ensures |tags| == (if topic == "motivation" || topic == "healing" then 2 else 0)
  {
    if topic == "motivation" then ["#inspiration", "#dailyquotes"]
    else if topic == "healing" then ["#selfcare", "#mindfulness"]
    else []
  }

  /** Every tag starts with `#`, and none holds a comma unless the topic
      does, so the tags can be written as comma-separated fields. */
  predicate WellFormedTags(tags: seq<string>, topic: string) {
    (forall k :: 0 <= k < |tags| ==> |tags[k]| > 0 && tags[k][0] == '#')
    && (',' !in topic ==> forall k :: 0 <= k < |tags| ==> ',' !in tags[k])
  }

  /** `generate_hashtags(topic)`: the base list, extended in place with the
      topic's extra tags. Only `motivation` and `healing` get extras. */
  method GenerateHashtags(topic: string) returns (tags: seq<string>)
    ensures |tags| >= 5 && tags[..5] == ["#reels", "#explore", "#" + topic, "#viral", "#shorts"]
    ensures tags[5..] == ExtraTags(topic)
    ensures topic == "motivation" ==> |tags| == 7 && tags[5] == "#inspiration" && tags[6] == "#dailyquotes"
    ensures topic == "healing" ==> |tags| == 7 && tags[5] == "#selfcare" && tags[6] == "#mindfulness"
    ensures topic != "motivation" && topic != "healing" ==> tags == BaseTags(topic)
    ensures WellFormedTags(tags, topic)
  {
    tags := ["#reels", "#explore", "#" + topic, "#viral", "#shorts"];
    if topic == "motivation" {
      tags := tags + ["#inspiration", "#dailyquotes"];
    } else if topic == "healing" {
      tags := tags + ["#selfcare", "#mindfulness"];
    }
    TagsWellFormed(topic, tags);
  }

  /** The tags of any topic are well formed. */
  lemma TagsWellFormed(topic: string, tags: seq<string>)
    requires tags == BaseTags(topic) + ExtraTags(topic)
    ensures WellFormedTags(tags, topic)
  {
    var base, extra := BaseTags(topic), ExtraTags(topic);
    assert ("#" + topic)[0] == '#';
    assert ',' !in topic ==> ',' !in "#" + topic by {
      assert forall c | c in "#" + topic :: c == '#' || c in topic;
    }
    assert WellFormedTags(base, topic);
    assert WellFormedTags(extra, topic);
    ConcatWellFormed(base, extra, topic);
  }

  lemma ConcatWellFormed(a: seq<string>, b: seq<string>, topic: string)
    requires WellFormedTags(a, topic) && WellFormedTags(b, topic)
    ensures WellFormedTags(a + b, topic)
  {
    assert forall k :: 0 <= k < |a + b| ==> (a + b)[k] == if k < |a| then a[k] else b[k - |a|];
  }
}
