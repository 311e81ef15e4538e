/** Writer objects that forward text to a logger (module `goripy.log`). The
    logger itself is modelled as the list of `(level, message)` records it
    has received. */
module Log {
  import opened Seqs
  import opened Strings

  type Record = (int, string)

  /** A `logging.Logger`, as the records logged to it so far. */
  class Logger {
    var records: seq<Record>

    constructor()
      ensures records == []
    {
      records := [];
    }

    /** `logger.log(level, msg)`. */
    method Log(level: int, msg: string)
      modifies this
      ensures records == old(records) + [(level, msg)]
    {
      records := records + [(level, msg)];
    }
  }

  /** `[(level, m) for m in msgs]`. */
  function Tag(level: int, msgs: seq<string>): (r: seq<Record>)
    ensures |r| == |msgs|
    ensures forall i :: 0 <= i < |msgs| ==> r[i] == (level, msgs[i])
  {
    seq(|msgs|, i requires 0 <= i < |msgs| => (level, msgs[i]))
  }

  /** The messages of some records. */
  function Texts(rs: seq<Record>): (r: seq<string>)
    ensures |r| == |rs|
    ensures forall i :: 0 <= i < |rs| ==> r[i] == rs[i].1
  {
    seq(|rs|, i requires 0 <= i < |rs| => rs[i].1)
  }

  // ---- TqdmLogger ----

  /** What `TqdmLogger.write` logs: the message without `\n` and `\r`, and
      nothing when that is empty. */
  function TqdmLines(message: string): (r: seq<string>)
  {
    var m := Remove(Remove(message, '\n'), '\r');
    if m != "" then [m] else []
  }

  /** At most one record, non-empty, with no line break characters, and
      holding every other character of the message in order. */
  lemma TqdmLinesSpec(message: string)
    ensures |TqdmLines(message)| <= 1
    ensures forall i :: 0 <= i < |TqdmLines(message)| ==>
      TqdmLines(message)[i] != "" && Avoids(TqdmLines(message)[i], '\n') && Avoids(TqdmLines(message)[i], '\r')
    ensures Flatten(TqdmLines(message)) == Remove(Remove(message, '\n'), '\r')
  {
    var m := Remove(Remove(message, '\n'), '\r');
    RemoveAvoidsOther(Remove(message, '\n'), '\n', '\r');
    if m != "" {
      assert Flatten([m]) == Flatten([]) + m;
    }
  }

  /** Taking out one character keeps another one out. */
  lemma {:induction false} RemoveAvoidsOther(s: string, c: char, d: char)
    requires Avoids(s, c)
    ensures Avoids(Remove(s, d), c)
  {
    if s != [] {
      RemoveAvoidsOther(s[1..], c, d);
    }
  }

  class TqdmLogger {
    const logger: Logger
    const logLevel: int

    constructor(logger: Logger, logLevel: int)
      ensures this.logger == logger && this.logLevel == logLevel
    {
      this.logger := logger;
      this.logLevel := logLevel;
    }

    /** `write(message)`. */
    method Write(message: string)
      modifies logger
      ensures logger.records == old(logger.records) + Tag(logLevel, TqdmLines(message))
    {
      var m := Remove(message, '\n');
      m := Remove(m, '\r');
      if m != "" {
        logger.Log(logLevel, m);
      }
    }

    /** `flush()` does nothing. */
    method Flush()
      ensures logger.records == old(logger.records)
    {
    }
  }

  // ---- StderrLogger ----

  /** The chunk loop of `StderrLogger.write` from buffer `buff`: each chunk
      first logs a non-empty buffer, then becomes the buffer. The result is
      the messages logged and the final buffer. */
  function Feed(buff: string, chunks: seq<string>): (string, seq<string>)
  {
    if chunks == [] then (buff, [])
    else
      var (b, logged) := Feed(buff, chunks[..|chunks| - 1]);
      (chunks[|chunks| - 1], if b != "" then logged + [b] else logged)
  }

  /** `write(message)` from buffer `buff`: the first chunk joins the buffer. */
  function WriteOut(buff: string, message: string): (string, seq<string>)
  {
    var chunks := Split(message, "\n");
    Feed(buff + chunks[0], chunks[1..])
  }

  /** Feeding one more chunk. */
  lemma FeedLast(buff: string, chunks: seq<string>)
    requires chunks != []
    ensures var (b, logged) := Feed(buff, chunks[..|chunks| - 1]);
      Feed(buff, chunks) == (chunks[|chunks| - 1], if b != "" then logged + [b] else logged)
  {
  }

  /** One more turn of the chunk loop, on a prefix of the chunks. */
  lemma FeedStep(buff: string, chunks: seq<string>, k: nat)
    requires 1 <= k <= |chunks|
    ensures var (b, logged) := Feed(buff, chunks[..k - 1]);
      Feed(buff, chunks[..k]) == (chunks[k - 1], if b != "" then logged + [b] else logged)
  {
    assert chunks[..k][..k - 1] == chunks[..k - 1];
    FeedLast(buff, chunks[..k]);
  }

  lemma TagSnoc(level: int, msgs: seq<string>, m: string)
    ensures Tag(level, msgs + [m]) == Tag(level, msgs) + [(level, m)]
  {
    assert forall i :: 0 <= i <= |msgs| ==> Tag(level, msgs + [m])[i] == (Tag(level, msgs) + [(level, m)])[i];
  }

  /** Nothing is lost or added: the logged messages followed by the new
      buffer are the old buffer followed by the chunks. */
  lemma {:induction false} FeedKeepsText(buff: string, chunks: seq<string>)
    ensures Flatten(Feed(buff, chunks).1) + Feed(buff, chunks).0 == buff + Flatten(chunks)
    ensures chunks != [] ==> Feed(buff, chunks).0 == chunks[|chunks| - 1]
    decreases |chunks|
  {
    if chunks != [] {
      var front, last := chunks[..|chunks| - 1], chunks[|chunks| - 1];
      FeedKeepsText(buff, front);
      var (b, logged) := Feed(buff, front);
      FeedLast(buff, chunks);
      assert chunks == front + [last];
      FlattenAppend(front, [last]);
      assert Flatten([last]) == Flatten([]) + last;
      assert Flatten(chunks) == Flatten(front) + last;
      if b != "" {
        FlattenAppend(logged, [b]);
        assert Flatten([b]) == Flatten([]) + b;
        assert Flatten(logged + [b]) + last == (Flatten(logged) + b) + last;
      } else {
        assert Flatten(logged) + b == Flatten(logged);
      }
    }
  }

  /** Every logged message is non-empty, and chunks free of `c` keep `c`
      out of the buffer and the messages. */
  lemma {:induction false} FeedMessages(buff: string, chunks: seq<string>, c: char)
    ensures forall i :: 0 <= i < |Feed(buff, chunks).1| ==> Feed(buff, chunks).1[i] != ""
    ensures Avoids(buff, c) && (forall i :: 0 <= i < |chunks| ==> Avoids(chunks[i], c)) ==>
      Avoids(Feed(buff, chunks).0, c) &&
      forall i :: 0 <= i < |Feed(buff, chunks).1| ==> Avoids(Feed(buff, chunks).1[i], c)
    decreases |chunks|
  {
    if chunks != [] {
      FeedMessages(buff, chunks[..|chunks| - 1], c);
      FeedLast(buff, chunks);
    }
  }

  /** The chunks of `message.split("\n")` hold no `\n`, and put together
      they are the message without its `\n`. */
  lemma ChunksSpec(message: string)
    ensures var chunks := Split(message, "\n");
      (forall i :: 0 <= i < |chunks| ==> Avoids(chunks[i], '\n')) &&
      chunks[0] + Flatten(chunks[1..]) == Remove(message, '\n')
  {
    var chunks := Split(message, "\n");
    SplitAvoids(message, '\n');
    RemoveSplit(message, '\n');
    assert chunks == [chunks[0]] + chunks[1..];
    FlattenCons(chunks[0], chunks[1..]);
  }

  /** The loop from buffer `buff` once the first chunk has joined it. */
  lemma FeedFromSpec(buff: string, chunks: seq<string>, text: string)
    requires chunks != [] && Avoids(buff, '\n')
    requires forall i :: 0 <= i < |chunks| ==> Avoids(chunks[i], '\n')
    requires chunks[0] + Flatten(chunks[1..]) == text
    ensures Flatten(Feed(buff + chunks[0], chunks[1..]).1) + Feed(buff + chunks[0], chunks[1..]).0 == buff + text
    ensures Avoids(Feed(buff + chunks[0], chunks[1..]).0, '\n')
    ensures forall i :: 0 <= i < |Feed(buff + chunks[0], chunks[1..]).1| ==>
      Feed(buff + chunks[0], chunks[1..]).1[i] != "" && Avoids(Feed(buff + chunks[0], chunks[1..]).1[i], '\n')
    ensures Feed(buff + chunks[0], chunks[1..]).0 == if |chunks| == 1 then buff + chunks[0] else chunks[|chunks| - 1]
  {
    var rest := chunks[1..];
    assert Avoids(buff + chunks[0], '\n');
    assert forall i :: 0 <= i < |rest| ==> Avoids(rest[i], '\n') by {
      forall i | 0 <= i < |rest| ensures Avoids(rest[i], '\n') {
        assert rest[i] == chunks[i + 1];
      }
    }
    FeedKeepsText(buff + chunks[0], rest);
    FeedMessages(buff + chunks[0], rest, '\n');
    assert buff + chunks[0] + Flatten(rest) == buff + (chunks[0] + Flatten(rest));
  }

  /** One `write`: the logged messages are non-empty and free of `\n`; with
      the new buffer they are the old buffer followed by the message without
      its `\n`; the buffer keeps the text after the last `\n`, or grows by the
      whole message when it has none. */
  lemma WriteOutSpec(buff: string, message: string)
    requires Avoids(buff, '\n')
    ensures Flatten(WriteOut(buff, message).1) + WriteOut(buff, message).0 == buff + Remove(message, '\n')
    ensures Avoids(WriteOut(buff, message).0, '\n')
    ensures forall i :: 0 <= i < |WriteOut(buff, message).1| ==>
      WriteOut(buff, message).1[i] != "" && Avoids(WriteOut(buff, message).1[i], '\n')
    ensures WriteOut(buff, message).0 ==
      if |Split(message, "\n")| == 1 then buff + message else Split(message, "\n")[|Split(message, "\n")| - 1]
  {
    var chunks := Split(message, "\n");
    ChunksSpec(message);
    FeedFromSpec(buff, chunks, Remove(message, '\n'));
    if |chunks| == 1 {
      JoinSplit(message, "\n");
    }
  }

  /** The text after a `write` is the written text without its `\n`. */
  lemma WriteKeepsText(logged: seq<string>, w0: string, b0: string, message: string)
    requires Avoids(b0, '\n') && Flatten(logged) + b0 == Remove(w0, '\n')
    ensures Flatten(logged + WriteOut(b0, message).1) + WriteOut(b0, message).0 == Remove(w0 + message, '\n')
  {
    var b, added := WriteOut(b0, message).0, WriteOut(b0, message).1;
    assert Flatten(added) + b == b0 + Remove(message, '\n') by {
      WriteOutSpec(b0, message);
    }
    FlattenAppend(logged, added);
    assert Remove(w0 + message, '\n') == Remove(w0, '\n') + Remove(message, '\n') by {
      RemoveAppend(w0, message, '\n');
    }
    Regroup(Flatten(logged), Flatten(added), b, b0, Remove(message, '\n'));
  }

  lemma Regroup(x: string, y: string, b: string, b0: string, m: string)
    requires y + b == b0 + m
    ensures x + y + b == (x + b0) + m
  {
    assert x + y + b == x + (y + b);
    assert x + (b0 + m) == (x + b0) + m;
  }

  /** The messages a writer logged are non-empty and free of `\n`, and
      together with the buffer `buff` they are `written` without its `\n`. */
  predicate Keeps(logged: seq<string>, buff: string, written: string)
  {
    (forall i :: 0 <= i < |logged| ==> logged[i] != "" && Avoids(logged[i], '\n')) &&
    Avoids(buff, '\n') &&
    Flatten(logged) + buff == Remove(written, '\n')
  }

  /** A `write` keeps the writer's invariant. */
  lemma WriteKeeps(logged: seq<string>, b0: string, w0: string, message: string)
    requires Keeps(logged, b0, w0)
    ensures Keeps(logged + WriteOut(b0, message).1, WriteOut(b0, message).0, w0 + message)
  {
    WriteOutSpec(b0, message);
    WriteKeepsText(logged, w0, b0, message);
  }

  class StderrLogger {
    const logger: Logger
    const logLevel: int
    var logBuff: string
    /** Everything passed to `write` so far. */
    ghost var written: string
    /** The messages this writer has logged so far, whatever else the
        logger received in between. */
    ghost var logged: seq<string>

    /** The messages this writer logged are non-empty and free of `\n`,
        and together with the buffer they are the written text without its
        `\n`. It constrains the writer alone, never the logger. */
    ghost predicate Valid()
      reads this
    {
      Keeps(logged, logBuff, written)
    }

    constructor(logger: Logger, logLevel: int)
      ensures this.logger == logger && this.logLevel == logLevel
      ensures logBuff == "" && written == "" && logged == [] && Valid()
    {
      this.logger := logger;
      this.logLevel := logLevel;
      logBuff := "";
      written := "";
      logged := [];
    }

    /** `write(message)`. */
    method Write(message: string)
      requires Valid()
      modifies this, logger
      ensures (logBuff, logger.records) ==
        (WriteOut(old(logBuff), message).0, old(logger.records) + Tag(logLevel, WriteOut(old(logBuff), message).1))
      ensures written == old(written) + message && logged == old(logged) + WriteOut(old(logBuff), message).1
      ensures Valid()
    {
      ghost var before := logger.records;
      ghost var b0 := logBuff;
      var chunks := Split(message, "\n");
      logBuff := logBuff + chunks[0];
      ghost var rest := chunks[1..];
      assert before + Tag(logLevel, []) == before;
      for k := 1 to |chunks|
        invariant logged == old(logged) && written == old(written)
        invariant logBuff == Feed(b0 + chunks[0], rest[..k - 1]).0
        invariant logger.records == before + Tag(logLevel, Feed(b0 + chunks[0], rest[..k - 1]).1)
      {
        ghost var st := Feed(b0 + chunks[0], rest[..k - 1]);
        FeedStep(b0 + chunks[0], rest, k);
        assert rest[k - 1] == chunks[k];
        if logBuff != "" {
          TagSnoc(logLevel, st.1, st.0);
          logger.Log(logLevel, logBuff);
          logBuff := "";
        }
        assert logBuff + chunks[k] == chunks[k];
        logBuff := logBuff + chunks[k];
      }
      assert rest[..|chunks| - 1] == rest;
      written := written + message;
      logged := logged + WriteOut(b0, message).1;
      WriteKeeps(old(logged), b0, old(written), message);
    }

    /** `__del__()`: a non-empty buffer is logged, then cleared. */
    method Del()
      requires Valid()
      modifies this, logger
      ensures logger.records == old(logger.records) + (if old(logBuff) != "" then [(logLevel, old(logBuff))] else [])
      ensures logBuff == "" && written == old(written)
      ensures logged == old(logged) + (if old(logBuff) != "" then [old(logBuff)] else [])
      ensures Valid()
    {
      if logBuff != "" {
        logger.Log(logLevel, logBuff);
        FlattenAppend(logged, [logBuff]);
        assert Flatten([logBuff]) == Flatten([]) + logBuff;
        logged := logged + [logBuff];
        logBuff := "";
      }
    }

    /** `flush()` does nothing. */
    method Flush()
      ensures logBuff == old(logBuff) && logger.records == old(logger.records)
    {
    }
  }
}
