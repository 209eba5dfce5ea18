/**
 * The records the daemon sends to its clients and writes to its state file
 * (the `format` package): a job identity, an execution snapshot and a job
 * snapshot. Only their logical content is modelled, not the encoding.
 */
module Format {

  /** Size of a content version: a SHA-1 digest. */
  const DigestSize: nat := 20

  /** A content version: a fixed-size digest. */
  type Version = v: seq<bv8> | |v| == DigestSize witness seq(20, i => 0 as bv8)

  /** The version of a job that has never been refreshed (Go's zero array). */
  const ZeroVersion: Version := seq(DigestSize, i => 0 as bv8)

  datatype Jobid = Jobid(name: string, remote: string, branch: string)

  /** One execution as seen over the wire; timestamps are Unix seconds. */
  datatype ExecMsg = ExecMsg(start: int, end: int, errcode: int, result: string, version: Version)

  datatype JobMsg = JobMsg(id: Jobid, refresh: ExecMsg, build: ExecMsg)
}
