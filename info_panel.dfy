/** The info panel's bookkeeping (`infoState` in js/native-app.js): traffic counters
    and an activity log that keeps the newest entry first and at most 50 entries. */
module InfoPanel {

  const MAX_LOGS: nat := 50

  datatype Stats = Stats(bytesSent: int, bytesRecv: int, filesSent: nat, filesRecv: nat, msgSent: nat, msgRecv: nat)

  const ZeroStats := Stats(0, 0, 0, 0, 0, 0)

  datatype LogKind = Info | Success

  /** One activity entry; `time` is the clock reading the caller supplies. */
  datatype LogEntry = LogEntry(time: string, kind: LogKind, message: string)

  /** The log after `unshift(entry)` and, when it then holds more than MAX_LOGS
      entries, one `pop()`. */
  function PushLog(logs: seq<LogEntry>, e: LogEntry): (r: seq<LogEntry>)
    ensures |r| == if |logs| < MAX_LOGS then |logs| + 1 else |logs|
    ensures r[0] == e && r[1..] == logs[..|r| - 1]
  {
    var l := [e] + logs;
    if |l| > MAX_LOGS then l[..|l| - 1] else l
  }

  class InfoState {
    var stats: Stats
    var logs: seq<LogEntry>

    ghost predicate Valid()
      reads this
    {
      |logs| <= MAX_LOGS
    }

    constructor ()
      ensures Valid() && stats == ZeroStats && logs == []
    {
      stats := ZeroStats;
      logs := [];
    }

    /** addActivityLog: the new entry goes to the front; the oldest drops off past 50. */
    method AddActivityLog(time: string, kind: LogKind, message: string)
      requires Valid()
      modifies this
      ensures Valid()
      ensures logs == PushLog(old(logs), LogEntry(time, kind, message))
      ensures logs[0] == LogEntry(time, kind, message) && |logs| <= MAX_LOGS
      ensures stats == old(stats)
    {
      logs := [LogEntry(time, kind, message)] + logs;
      if |logs| > MAX_LOGS {
        logs := logs[..|logs| - 1];
      }
    }

    method TrackMsgSent(time: string)
      requires Valid()
      modifies this
      ensures Valid()
      ensures stats == old(stats).(msgSent := old(stats).msgSent + 1)
      ensures logs == PushLog(old(logs), LogEntry(time, Info, "Pesan terkirim"))
    {
      stats := stats.(msgSent := stats.msgSent + 1);
      AddActivityLog(time, Info, "Pesan terkirim");
    }

    method TrackMsgRecv(time: string)
      requires Valid()
      modifies this
      ensures Valid()
      ensures stats == old(stats).(msgRecv := old(stats).msgRecv + 1)
      ensures logs == PushLog(old(logs), LogEntry(time, Info, "Pesan diterima"))
    {
      stats := stats.(msgRecv := stats.msgRecv + 1);
      AddActivityLog(time, Info, "Pesan diterima");
    }

    method TrackFileSent(time: string, fileName: string, fileSize: int)
      requires Valid()
      modifies this
      ensures Valid()
      ensures stats == old(stats).(filesSent := old(stats).filesSent + 1,
                                   bytesSent := old(stats).bytesSent + fileSize)
      ensures logs == PushLog(old(logs), LogEntry(time, Success, "File terkirim: " + fileName))
    {
      stats := stats.(filesSent := stats.filesSent + 1, bytesSent := stats.bytesSent + fileSize);
      AddActivityLog(time, Success, "File terkirim: " + fileName);
    }

    method TrackFileRecv(time: string, fileName: string, fileSize: int)
      requires Valid()
      modifies this
      ensures Valid()
      ensures stats == old(stats).(filesRecv := old(stats).filesRecv + 1,
                                   bytesRecv := old(stats).bytesRecv + fileSize)
      ensures logs == PushLog(old(logs), LogEntry(time, Success, "File diterima: " + fileName))
    {
      stats := stats.(filesRecv := stats.filesRecv + 1, bytesRecv := stats.bytesRecv + fileSize);
      AddActivityLog(time, Success, "File diterima: " + fileName);
    }
  }
}
