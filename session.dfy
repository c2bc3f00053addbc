/** The three replay-latest channels of `accountState` and the ordering rule
    between storage writes and publications on them. The log of effects is a
    ghost record of what the service did, in order; the channels' current
    values are read off it. */
module Session {
  import opened Outcomes

  /** The keys of `accountState`. */
  datatype Channel = USER | EMAIL | KEY

  /** What a channel carries: the user name or e-mail, or the keyring
      controller's state object. */
  datatype Payload = Str(s: string) | Obj(fields: map<string, string>)

  datatype Effect =
    | Stored(entries: map<string, string>)           // a `setState(entries)` that resolved
    | Published(channel: Channel, payload: Payload)  // `accountState[channel].next(payload)`

  function ChannelName(ch: Channel): string
  {
    match ch
    case USER => "USER"
    case EMAIL => "EMAIL"
    case KEY => "KEY"
  }

  /** The argument of the `setState` call whose success licenses publishing
      `p` on `ch`: `{USER: name}`, `{EMAIL: address}`, or the keyring state
      object itself (written under its own keys). */
  function StorageEntries(ch: Channel, p: Payload): map<string, string>
  {
    match p
    case Str(s) => map[ChannelName(ch) := s]
    case Obj(m) => m
  }

  /** Write-then-publish: every publication comes after a successful write
      of exactly what it publishes. */
  ghost predicate WriteThenPublish(log: seq<Effect>)
  {
    forall i :: 0 <= i < |log| && log[i].Published? ==>
      Stored(StorageEntries(log[i].channel, log[i].payload)) in log[..i]
  }

  /** The storage contents after the writes of `log`, applied in order, on
      top of `base`; publications do not touch storage. */
  function Replay(base: map<string, string>, log: seq<Effect>): map<string, string>
  {
    if |log| == 0 then base
    else
      var rest := Replay(base, log[..|log| - 1]);
      match log[|log| - 1]
      case Stored(entries) => rest + entries
      case Published(_, _) => rest
  }

  /** The value a replay-latest channel holds after `log`: the last payload
      published on it, or `None` (its initial `null`) if there was none. */
  function LatestPublished(log: seq<Effect>, ch: Channel): Option<Payload>
  {
    if |log| == 0 then None
    else
      var last := log[|log| - 1];
      if last.Published? && last.channel == ch then Some(last.payload)
      else LatestPublished(log[..|log| - 1], ch)
  }

  /** A channel replays the payload of the last publication on it: there is
      none exactly when the channel still holds `None`, and otherwise the
      value was published at some index with no publication on the channel
      after it. */
  lemma {:induction false} LatestPublishedIsLast(log: seq<Effect>, ch: Channel)
    ensures LatestPublished(log, ch).None?
            <==> forall i :: 0 <= i < |log| ==> !(log[i].Published? && log[i].channel == ch)
    ensures LatestPublished(log, ch).Some? ==>
              exists i :: 0 <= i < |log| && log[i] == Published(ch, LatestPublished(log, ch).value)
                       && forall j :: i < j < |log| ==> !(log[j].Published? && log[j].channel == ch)
  {
    if |log| > 0 {
      var n := |log|;
      var prefix := log[..n - 1];
      var last := log[n - 1];
      if last.Published? && last.channel == ch {
        assert log[n - 1] == Published(ch, LatestPublished(log, ch).value);
      } else {
        LatestPublishedIsLast(prefix, ch);
        assert LatestPublished(log, ch) == LatestPublished(prefix, ch);
        assert forall i :: 0 <= i < n - 1 ==> log[i] == prefix[i];
        if LatestPublished(prefix, ch).Some? {
          var i :| 0 <= i < |prefix| && prefix[i] == Published(ch, LatestPublished(prefix, ch).value)
                   && forall j :: i < j < |prefix| ==> !(prefix[j].Published? && prefix[j].channel == ch);
          assert log[i] == prefix[i];
        }
      }
    }
  }

  /** A write leaves every channel's value as it was. */
  lemma StoringKeepsChannels(log: seq<Effect>, entries: map<string, string>, ch: Channel)
    ensures LatestPublished(log + [Stored(entries)], ch) == LatestPublished(log, ch)
  {
  }

  /** A publication sets its own channel and leaves the others alone. */
  lemma PublishingSetsChannel(log: seq<Effect>, ch: Channel, p: Payload, other: Channel)
    ensures LatestPublished(log + [Published(ch, p)], other)
         == if other == ch then Some(p) else LatestPublished(log, other)
  {
  }

  /** A write lays its entries over the storage contents; a publication
      leaves them as they were. */
  lemma ReplayStep(base: map<string, string>, log: seq<Effect>, e: Effect)
    ensures Replay(base, log + [e])
         == if e.Stored? then Replay(base, log) + e.entries else Replay(base, log)
  {
    assert (log + [e])[..|log|] == log;
  }

  /** Every prefix of an ordered log is ordered. */
  lemma PrefixKeepsOrder(log: seq<Effect>, n: nat)
    requires WriteThenPublish(log)
    requires n <= |log|
    ensures WriteThenPublish(log[..n])
  {
    var prefix := log[..n];
    forall i | 0 <= i < |prefix| && prefix[i].Published?
      ensures Stored(StorageEntries(prefix[i].channel, prefix[i].payload)) in prefix[..i]
    {
      assert log[i] == prefix[i] && log[..i] == prefix[..i];
    }
  }

  /** Appending a write keeps the write-then-publish order. */
  lemma StoringKeepsOrder(log: seq<Effect>, entries: map<string, string>)
    requires WriteThenPublish(log)
    ensures WriteThenPublish(log + [Stored(entries)])
  {
    var log' := log + [Stored(entries)];
    forall i | 0 <= i < |log'| && log'[i].Published?
      ensures Stored(StorageEntries(log'[i].channel, log'[i].payload)) in log'[..i]
    {
      assert i < |log| && log'[i] == log[i] && log'[..i] == log[..i];
    }
  }

  /** Appending a publication keeps the write-then-publish order exactly when
      the log already holds the write of what is published. */
  lemma PublishingKeepsOrder(log: seq<Effect>, ch: Channel, p: Payload)
    requires WriteThenPublish(log)
    ensures WriteThenPublish(log + [Published(ch, p)]) <==> Stored(StorageEntries(ch, p)) in log
  {
    var log' := log + [Published(ch, p)];
    assert log'[|log|] == Published(ch, p) && log'[..|log|] == log;
    if Stored(StorageEntries(ch, p)) in log {
      forall i | 0 <= i < |log'| && log'[i].Published?
        ensures Stored(StorageEntries(log'[i].channel, log'[i].payload)) in log'[..i]
      {
        if i < |log| {
          assert log'[..i] == log[..i];
        }
      }
    }
  }

  /** Whatever value a channel holds was durably written to storage first:
      the log holds the write of exactly its entries before the publication
      that set it. */
  lemma {:induction false} LatestPublishedWasStored(log: seq<Effect>, ch: Channel)
    requires WriteThenPublish(log)
    requires LatestPublished(log, ch).Some?
    ensures exists j, k :: 0 <= j < k < |log|
                        && log[j] == Stored(StorageEntries(ch, LatestPublished(log, ch).value))
                        && log[k] == Published(ch, LatestPublished(log, ch).value)
  {
    var n := |log|;
    var last := log[n - 1];
    var value := LatestPublished(log, ch).value;
    if last.Published? && last.channel == ch {
      assert Stored(StorageEntries(ch, value)) in log[..n - 1];
      var j :| 0 <= j < n - 1 && log[..n - 1][j] == Stored(StorageEntries(ch, value));
      assert log[j] == Stored(StorageEntries(ch, value)) && log[n - 1] == Published(ch, value);
    } else {
      var prefix := log[..n - 1];
      PrefixKeepsOrder(log, n - 1);
      LatestPublishedWasStored(prefix, ch);
      var j, k :| 0 <= j < k < |prefix|
                && prefix[j] == Stored(StorageEntries(ch, value))
                && prefix[k] == Published(ch, value);
      assert log[j] == prefix[j] && log[k] == prefix[k];
    }
  }
}
