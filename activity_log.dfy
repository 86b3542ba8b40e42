/** One record of the activity log: the timestamp, the topic, the script in
    double quotes with its commas turned into semicolons, and the hashtags,
    all separated by commas, followed by one newline. */
module ActivityLog {
  import opened Text
  import opened Hashtags

  /** `script.replace(',', ';')`: every comma becomes a semicolon and every
      other character stays where it is. */
  function Sanitise(s: string): (r: string)
    ensures |r| == |s|
    ensures forall k :: 0 <= k < |s| ==> r[k] == (if s[k] == ',' then ';' else s[k])
    ensures ',' !in r
  {
    if s == [] then [] else [if s[0] == ',' then ';' else s[0]] + Sanitise(s[1..])
  }

  /** A script without commas is written as it is. */
  lemma SanitiseIdentity(s: string)
    requires ',' !in s
    ensures Sanitise(s) == s
  {
    assert forall k :: 0 <= k < |s| ==> s[k] != ',' by {
      forall k | 0 <= k < |s| ensures s[k] != ',' {
        assert s[k] in s;
      }
    }
  }

  /** Sanitising keeps every line break, and so the number of lines. */
  lemma {:induction false} SanitiseKeepsNewlines(s: string)
    ensures Count(Sanitise(s), '\n') == Count(s, '\n')
  {
    if s != [] {
      SanitiseKeepsNewlines(s[1..]);
      assert Sanitise(s)[1..] == Sanitise(s[1..]);
    }
  }

  /** The quoted script field: the sanitised script between double quotes,
      with no comma in it to split the line at. */
  function Quoted(script: string): (q: string)
    ensures |q| == |script| + 2 && q[0] == '"' && q[|q| - 1] == '"'
    ensures ',' !in q
  {
    var q := "\"" + Sanitise(script) + "\"";
    assert forall c | c in q :: c == '"' || c in Sanitise(script);
    q
  }

  /** The log line built in `save_log`, before the newline is added. The
      script contributes no field separator: the commas of the line are
      those of the timestamp, the topic and the joined hashtags, plus the
      three that separate the four parts. */
  function LogEntry(timestamp: string, topic: string, script: string, hashtags: seq<string>): (line: string)
    ensures Count(line, ',') == Count(timestamp, ',') + Count(topic, ',') + Count(Join(hashtags, ","), ',') + 3
  {
    var q := Quoted(script);
    var t := Join(hashtags, ",");
    var line := timestamp + "," + topic + "," + q + "," + t;
    EntryCommas(timestamp, topic, q, t);
    assert Count(q, ',') == 0 by {
      CountConcat("\"" + Sanitise(script), "\"", ',');
      CountConcat("\"", Sanitise(script), ',');
    }
    line
  }

  lemma EntryCommas(a: string, b: string, q: string, t: string)
    ensures Count(a + "," + b + "," + q + "," + t, ',') == Count(a, ',') + Count(b, ',') + Count(q, ',') + Count(t, ',') + 3
  {
    CountConcat(a + "," + b + "," + q + ",", t, ',');
    CountConcat(a + "," + b + "," + q, ",", ',');
    CountConcat(a + "," + b + ",", q, ',');
    CountConcat(a + "," + b, ",", ',');
    CountConcat(a + ",", b, ',');
    CountConcat(a, ",", ',');
  }

  /** Splitting a log line at its commas gives back the timestamp, the
      topic, the quoted script and the hashtags (one empty field when there
      are none), as long as the timestamp, topic and tags hold no comma. */
  lemma EntryFields(timestamp: string, topic: string, script: string, hashtags: seq<string>)
    requires ',' !in timestamp && ',' !in topic
    requires forall k :: 0 <= k < |hashtags| ==> ',' !in hashtags[k]
    ensures SplitOn(LogEntry(timestamp, topic, script, hashtags), ',')
            == [timestamp, topic, Quoted(script)] + (if hashtags == [] then [[]] else hashtags)
  {
    var q := Quoted(script);
    var fields := [timestamp, topic, q] + (if hashtags == [] then [[]] else hashtags);
    assert forall k :: 0 <= k < |fields| ==> ',' !in fields[k];
    JoinFields(timestamp, topic, q, hashtags);
    SplitJoin(fields, ',');
  }

  /** The record of a reel: with a timestamp and topic free of commas, its
      fields are the timestamp, the topic, the quoted script and the reel's
      own hashtags, one field each. */
  lemma ReelEntryFields(timestamp: string, topic: string, script: string)
    requires ',' !in timestamp && ',' !in topic
    ensures SplitOn(LogEntry(timestamp, topic, script, BaseTags(topic) + ExtraTags(topic)), ',')
            == [timestamp, topic, Quoted(script)] + BaseTags(topic) + ExtraTags(topic)
  {
    var tags := BaseTags(topic) + ExtraTags(topic);
    TagsWellFormed(topic, tags);
    EntryFields(timestamp, topic, script, tags);
  }

  lemma JoinFields(a: string, b: string, q: string, hashtags: seq<string>)
    ensures Join([a, b, q] + (if hashtags == [] then [[]] else hashtags), ",")
            == a + "," + b + "," + q + "," + Join(hashtags, ",")
  {
    var tail := if hashtags == [] then [[]] else hashtags;
    var t := Join(hashtags, ",");
    assert Join(tail, ",") == t;
    var fields := [a, b, q] + tail;
    assert fields[1..] == [b, q] + tail;
    assert ([b, q] + tail)[1..] == [q] + tail;
    assert ([q] + tail)[1..] == tail;
    assert Join([q] + tail, ",") == q + "," + t;
    assert Join([b, q] + tail, ",") == b + "," + (q + "," + t);
    assert Join(fields, ",") == a + "," + (b + "," + (q + "," + t));
  }

  /** `log_entry + "\n"`: what one call of `save_log` appends to the log
      file. It adds exactly one line break, at the end. */
  function LogRecord(entry: string): (record: string)
    ensures |record| == |entry| + 1 && record[..|entry|] == entry
    ensures record[|record| - 1] == '\n'
    ensures Count(record, '\n') == Count(entry, '\n') + 1
  {
    CountConcat(entry, "\n", '\n');
    entry + "\n"
  }

  /** A record whose entry has no line break is one line of the file. */
  lemma RecordIsOneLine(entry: string)
    requires '\n' !in entry
    ensures SplitOn(LogRecord(entry), '\n') == [entry, []]
  {
    SplitJoin([entry, []], '\n');
    assert Join([entry, []], "\n") == entry + "\n" + Join([[]], "\n");
    assert entry + "\n" + [] == LogRecord(entry);
  }

  /** The line breaks of a record: the one `save_log` adds, plus those the
      wrapped script carries into its quoted field. */
  lemma RecordLineBreaks(timestamp: string, topic: string, script: string, hashtags: seq<string>)
    requires '\n' !in timestamp && '\n' !in topic
    requires forall k :: 0 <= k < |hashtags| ==> '\n' !in hashtags[k]
    ensures Count(LogRecord(LogEntry(timestamp, topic, script, hashtags)), '\n') == Count(script, '\n') + 1
  {
    var q := Quoted(script);
    var t := Join(hashtags, ",");
    JoinNewlineFree(hashtags);
    CountConcat(timestamp + "," + topic + "," + q + ",", t, '\n');
    CountConcat(timestamp + "," + topic + "," + q, ",", '\n');
    CountConcat(timestamp + "," + topic + ",", q, '\n');
    CountConcat(timestamp + "," + topic, ",", '\n');
    CountConcat(timestamp + ",", topic, '\n');
    CountConcat(timestamp, ",", '\n');
    CountConcat("\"" + Sanitise(script), "\"", '\n');
    CountConcat("\"", Sanitise(script), '\n');
    SanitiseKeepsNewlines(script);
  }

  lemma {:induction false} JoinNewlineFree(parts: seq<string>)
    requires forall k :: 0 <= k < |parts| ==> '\n' !in parts[k]
    ensures '\n' !in Join(parts, ",")
  {
    if |parts| > 1 {
      JoinNewlineFree(parts[1..]);
      assert forall c | c in Join(parts, ",") :: c in parts[0] || c == ',' || c in Join(parts[1..], ",");
    }
  }
}
