/** The textual form of a Kafka offset: topic, partition and offset around slashes. */
module KafkaOffset {
  import opened Text
  import opened Decimal

  datatype Offset = Offset(topic: string, partition: Int64, offset: Int64)

  datatype ParseError = InvalidOffsetFormat

  function ToString(o: Offset): string {
    o.topic + "/" + FormatInt(o.partition) + "/" + FormatInt(o.offset)
  }

  function FromString(s: string): Result<Offset, ParseError> {
    var parts := Split(s, '/');
    if |parts| != 3 then Err(InvalidOffsetFormat)
    else
      var partition := Atoi(parts[1]);
      var offset := Atoi(parts[2]);
      if partition == None || offset == None then Err(InvalidOffsetFormat)
      else Ok(Offset(parts[0], partition.value, offset.value))
  }

  lemma SeparatorCount(o: Offset)
    ensures Count(ToString(o), '/') == Count(o.topic, '/') + 2
  {
    var p, f := FormatInt(o.partition), FormatInt(o.offset);
    FormatHasNo(o.partition, '/');
    FormatHasNo(o.offset, '/');
    CountZero(p, '/');
    CountZero(f, '/');
    CountAppend(o.topic + "/" + p + "/", f, '/');
    CountAppend(o.topic + "/" + p, "/", '/');
    CountAppend(o.topic + "/", p, '/');
    CountAppend(o.topic, "/", '/');
    assert Count("/", '/') == 1;
  }

  lemma SplitToString(o: Offset)
    requires '/' !in o.topic
    ensures Split(ToString(o), '/') == [o.topic, FormatInt(o.partition), FormatInt(o.offset)]
  {
    var p, f := FormatInt(o.partition), FormatInt(o.offset);
    FormatHasNo(o.partition, '/');
    FormatHasNo(o.offset, '/');
    SplitFree(f, '/');
    SplitCons(p, f, '/');
    var rest := p + "/" + f;
    SplitCons(o.topic, rest, '/');
    assert ToString(o) == o.topic + "/" + rest;
  }

  /** Reading back what was written gives the offset, for exactly the slash-free topics: with a
      slash in the topic the text is refused. Negative partitions and offsets are no exception. */
  lemma RoundTrip(o: Offset)
    ensures FromString(ToString(o)) == if '/' in o.topic then Err(InvalidOffsetFormat) else Ok(o)
  {
    SeparatorCount(o);
    JoinSplit(ToString(o), '/');
    if '/' !in o.topic { SplitToString(o); }
    CountZero(o.topic, '/');
    AtoiFormat(o.partition);
    AtoiFormat(o.offset);
  }

  /** Only texts with exactly two separators are read, and the topic is the part before the
      first; writing the result and reading it again changes nothing more. */
  lemma Accepted(s: string)
    ensures FromString(s).Ok? ==>
              var o := FromString(s).value;
              Count(s, '/') == 2 && '/' !in o.topic && o.topic + "/" <= s && FromString(ToString(o)) == Ok(o)
  {
    if FromString(s).Ok? {
      JoinSplit(s, '/');
      var parts := Split(s, '/');
      assert Join(parts[1..], '/') == parts[1] + ['/'] + Join(parts[1..][1..], '/');
      RoundTrip(FromString(s).value);
    }
  }
}
