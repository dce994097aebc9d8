/** promote_transcode and demote_transcode as they run, write by write. */
module TranscodeEngine {
  import opened Prelude
  import opened Paths
  import opened Jobs
  import opened Transcode

  class Transcoder {
    const config: Config
    var files: map<Path, Data>
    var tracks: map<Sha, Path>
    var rows: map<Sha, Row>
    var stats: Stats
    ghost var trace: seq<World>  // the state after every write so far

    constructor (config: Config, w: World)
      ensures this.config == config && State() == w && trace == [] && stats == Stats(0, 0, 0, 0)
    {
      this.config := config;
      files, tracks, rows := w.files, w.tracks, w.rows;
      stats := Stats(0, 0, 0, 0);
      trace := [];
    }

    function State(): World reads this { World(files, tracks, rows) }

    /** transcode_audio and the cleanup of a failed one. */
    method EncodeTo(src: Path, dst: Path, f: Faults) returns (rc: int)
      modifies this
      ensures var o := Encode(config, old(State()), src, dst, f, old(stats));
              State() == o.Final() && stats == o.stats && rc == o.rc && trace == old(trace) + o.trace
    {
      trace := trace + [State()];
      if !HasCodec(config.format) || src !in files || (f.encode && !f.begun) {
        stats := stats.(errors := stats.errors + 1);
        return -1;
      }
      var before, original := files, files[src];
      files := files[dst := Torn];
      trace := trace + [State()];
      if f.encode {
        if !f.cleanup { files := before; }
        trace := trace + [State()];
        stats := stats.(errors := stats.errors + 1);
        return -1;
      }
      files := before[dst := Encoded(original)];
      trace := trace + [State()];
      if f.stat {
        stats := stats.(errors := stats.errors + 1);
        return -1;
      }
      return 0;
    }

    /** The closing upsert. */
    method RecordCopy(sha: Sha, dst: Path, f: Faults, already: bool) returns (rc: int)
      modifies this`rows, this`stats, this`trace
      ensures rc == if f.upsert then -1 else if already then 1 else 0
      ensures State() == if f.upsert then old(State()) else Upsert(old(State()), sha, Row(true, Some(dst)))
      ensures trace == if f.upsert then old(trace) else old(trace) + [State()]
      ensures stats ==
              if f.upsert then old(stats).(errors := old(stats).errors + 1)
              else if already then old(stats).(alreadyApplied := old(stats).alreadyApplied + 1)
              else old(stats)
    {
      if f.upsert {
        stats := stats.(errors := stats.errors + 1);
        return -1;
      }
      rows := rows[sha := Row(true, Some(dst))];
      trace := trace + [State()];
      if already { stats := stats.(alreadyApplied := stats.alreadyApplied + 1); }
      return if already then 1 else 0;
    }

    method PromoteTo(sha: Sha, dst: Path, f: Faults) returns (rc: int)
      requires sha in tracks
      modifies this
      ensures var o := PromoteCopy(config, old(State()), sha, dst, f, old(stats));
              State() == o.Final() && stats == o.stats && rc == o.rc && trace == old(trace) + o.trace
    {
      if dst in files {
        trace := trace + [State()];
        rc := RecordCopy(sha, dst, f, true);
      } else if f.mkdir {
        trace := trace + [State()];
        stats := stats.(errors := stats.errors + 1);
        return -1;
      } else {
        rc := EncodeTo(tracks[sha], dst, f);
        if rc == 0 { rc := RecordCopy(sha, dst, f, false); }
      }
    }

    method Promote(sha: Sha, f: Faults) returns (rc: int)
      modifies this
      ensures var o := PromoteOne(config, old(State()), sha, f, old(stats));
              State() == o.Final() && stats == o.stats && rc == o.rc && trace == old(trace) + o.trace
    {
      var dst := Derived(config, tracks, sha);
      if dst.Some? {
        rc := PromoteTo(sha, dst.value, f);
      } else {
        trace := trace + [State()];
        stats := stats.(errors := stats.errors + 1);
        rc := -1;
      }
    }

    method Demote(sha: Sha, f: Faults) returns (rc: int)
      modifies this
      ensures var o := DemoteOne(old(State()), sha, f, old(stats));
              State() == o.Final() && stats == o.stats && rc == o.rc && trace == old(trace) + o.trace
    {
      trace := trace + [State()];
      if sha in rows && rows[sha].copy.Some? && !f.unlink { files := files - {rows[sha].copy.value}; }
      trace := trace + [State()];
      if f.upsert {
        stats := stats.(errors := stats.errors + 1);
        return -1;
      }
      rows := rows[sha := Row(false, None)];
      trace := trace + [State()];
      return 0;
    }

    /** One turn of the ADD or REMOVE loop. */
    method TakeTurn(sha: Sha, d: Direction, f: Faults)
      modifies this
      ensures var o := Turn(config, old(State()), Job(sha, d, f), old(stats));
              State() == o.Final() && stats == o.stats && trace == old(trace) + o.trace
    {
      var before := stats.errors;
      var rc;
      if d.Promote? { rc := Promote(sha, f); } else { rc := Demote(sha, f); }
      if rc == 0 && stats.errors == before {
        if d.Promote? {
          stats := stats.(added := stats.added + 1);
        } else {
          stats := stats.(removed := stats.removed + 1);
        }
      }
    }
  }
}
