/** Startup synchronisation of the local database snapshot
    (src/lib/services/init.ts): the remote hash read from the hash file, the
    lowercase hex form of a SHA-256 digest, the decision whether to download,
    and the close / download / verify / write / save sequence. SHA-256 is a
    parameter `sha256`; the network answers are inputs; the database file,
    the stored hash and the catalog connection are state. */
module SnapshotSync {
  import opened Outcomes
  import FilmDatabase

  newtype byte = b: int | 0 <= b < 256

  // ---------------------------------------------------------------------
  // Hex encoding of a digest
  // ---------------------------------------------------------------------

  /** The lowercase base-16 digit for `n`. */
  function HexDigit(n: nat): (c: char)
    requires n < 16
    ensures '0' <= c <= '9' || 'a' <= c <= 'f'
  {
    if n < 10 then ('0' as int + n) as char else ('a' as int + n - 10) as char
  }

  /** `n.toString(16)`: lowercase base-16 digits without leading zeros. */
  function ToBase16(n: nat): (r: string)
    ensures |r| >= 1
    decreases n
  {
    if n < 16 then [HexDigit(n)] else ToBase16(n / 16) + [HexDigit(n % 16)]
  }

  /** `s.padStart(width, fill)` */
  function PadStart(s: string, width: nat, fill: char): (r: string)
    ensures |r| == if |s| >= width then |s| else width
    ensures r[|r| - |s|..] == s
    ensures forall i :: 0 <= i < |r| - |s| ==> r[i] == fill
  {
    if |s| >= width then s else seq(width - |s|, _ => fill) + s
  }

  /** The two lowercase hex digits of a byte, the high one first. */
  function ByteHex(b: byte): string {
    [HexDigit(b as nat / 16), HexDigit(b as nat % 16)]
  }

  /** `b.toString(16).padStart(2, "0")` is always the two digits of `b`,
      zero-padded. */
  lemma PaddedBase16(b: byte)
    ensures PadStart(ToBase16(b as nat), 2, '0') == ByteHex(b)
  {
    var n := b as nat;
    if n >= 16 {
      assert ToBase16(n) == ToBase16(n / 16) + [HexDigit(n % 16)];
      assert ToBase16(n / 16) == [HexDigit(n / 16)];
    } else {
      assert ToBase16(n) == [HexDigit(n)];
      assert n / 16 == 0 && n % 16 == n;
    }
  }

  /** `Array.from(digest).map(b => b.toString(16).padStart(2, "0")).join("")`:
      two characters per byte, so twice as long as the digest. */
  function DigestHex(d: seq<byte>): (r: string)
    ensures |r| == 2 * |d|
  {
    if d == [] then "" else ByteHex(d[0]) + DigestHex(d[1..])
  }

  /** Byte `i` of the digest is characters `2i` and `2i+1` of its hex form,
      high digit first. */
  lemma DigestHexDigits(d: seq<byte>, i: nat)
    requires i < |d|
    ensures DigestHex(d)[2 * i] == HexDigit(d[i] as nat / 16)
    ensures DigestHex(d)[2 * i + 1] == HexDigit(d[i] as nat % 16)
  {
    var h := DigestHex(d);
    var pair := ByteHex(d[i]);
    DigestHexBytes(d, i);
    assert h[2 * i] == h[2 * i..2 * i + 2][0] == pair[0];
    assert h[2 * i + 1] == h[2 * i..2 * i + 2][1] == pair[1];
  }

  /** Characters `2i` and `2i+1` of the hex form are the hex form of byte `i`. */
  lemma {:induction false} DigestHexBytes(d: seq<byte>, i: nat)
    requires i < |d|
    ensures DigestHex(d)[2 * i..2 * i + 2] == ByteHex(d[i])
  {
    var rest := DigestHex(d[1..]);
    assert DigestHex(d) == ByteHex(d[0]) + rest;
    if i > 0 {
      DigestHexBytes(d[1..], i - 1);
      assert d[1..][i - 1] == d[i];
      assert DigestHex(d)[2 * i..2 * i + 2] == rest[2 * (i - 1)..2 * (i - 1) + 2];
    }
  }

  /** The hex form of a digest holds only lowercase hex digits. */
  lemma DigestHexIsLower(d: seq<byte>)
    ensures IsLowerHex(DigestHex(d))
  {
    var h := DigestHex(d);
    forall i | 0 <= i < |h| ensures '0' <= h[i] <= '9' || 'a' <= h[i] <= 'f' {
      DigestHexDigits(d, i / 2);
    }
  }

  /** Every character of the hex form is a lowercase hex digit. */
  predicate IsLowerHex(s: string) {
    forall i :: 0 <= i < |s| ==> '0' <= s[i] <= '9' || 'a' <= s[i] <= 'f'
  }

  /** The value of one lowercase hex digit. */
  function HexValue(c: char): Option<nat> {
    if '0' <= c <= '9' then Some(c as int - '0' as int)
    else if 'a' <= c <= 'f' then Some(c as int - 'a' as int + 10)
    else None
  }

  lemma HexValueOfDigit(n: nat)
    requires n < 16
    ensures HexValue(HexDigit(n)) == Some(n)
  {
  }

  /** Reads back a string of lowercase hex digit pairs. */
  function ParseHex(s: string): Option<seq<byte>>
    decreases |s|
  {
    if s == [] then Some([])
    else if |s| == 1 then None
    else
      match (HexValue(s[0]), HexValue(s[1]), ParseHex(s[2..]))
      case (Some(hi), Some(lo), Some(rest)) =>
        if hi * 16 + lo < 256 then Some([(hi * 16 + lo) as byte] + rest) else None
      case _ => None
  }

  /** The hex form determines the digest: reading it back gives the digest. */
  lemma {:induction false} ParseDigestHex(d: seq<byte>)
    ensures ParseHex(DigestHex(d)) == Some(d)
  {
    if d != [] {
      var s := DigestHex(d);
      var b := d[0] as nat;
      assert s == ByteHex(d[0]) + DigestHex(d[1..]);
      assert s[0] == HexDigit(b / 16) && s[1] == HexDigit(b % 16);
      HexValueOfDigit(b / 16);
      HexValueOfDigit(b % 16);
      assert s[2..] == DigestHex(d[1..]);
      ParseDigestHex(d[1..]);
      assert b / 16 * 16 + b % 16 == b;
      assert ParseHex(s) == Some([d[0]] + d[1..]);
      assert [d[0]] + d[1..] == d;
    }
  }

  /** Two digests with the same hex form are equal. */
  lemma DigestHexInjective(d1: seq<byte>, d2: seq<byte>)
    requires DigestHex(d1) == DigestHex(d2)
    ensures d1 == d2
  {
    ParseDigestHex(d1);
    ParseDigestHex(d2);
  }

  // ---------------------------------------------------------------------
  // The remote hash
  // ---------------------------------------------------------------------

  /** The code points JavaScript's `trim()` removes: white space and line
      terminators. */
  predicate IsJsSpace(c: char) {
    || c == '\t' || c == '\n' || c == '\U{B}' || c == '\U{C}' || c == '\r' || c == ' '
    || c == '\U{A0}' || c == '\U{1680}' || ('\U{2000}' <= c <= '\U{200A}')
    || c == '\U{2028}' || c == '\U{2029}' || c == '\U{202F}' || c == '\U{205F}'
    || c == '\U{3000}' || c == '\U{FEFF}'
  }

  predicate NoJsSpace(s: string) {
    forall i :: 0 <= i < |s| ==> !IsJsSpace(s[i])
  }

  /** The first index at or after `i` whose character is not white space
      (`|s|` when there is none). */
  function SkipSpace(s: string, i: nat): (j: nat)
    requires i <= |s|
    ensures i <= j <= |s|
    ensures j < |s| ==> !IsJsSpace(s[j])
    decreases |s| - i
  {
    if i < |s| && IsJsSpace(s[i]) then SkipSpace(s, i + 1) else i
  }

  /** The index just past the last character before `j` that is not white
      space (0 when there is none). */
  function SkipSpaceBack(s: string, j: nat): (i: nat)
    requires j <= |s|
    ensures i <= j
    ensures i > 0 ==> !IsJsSpace(s[i - 1])
  {
    if j > 0 && IsJsSpace(s[j - 1]) then SkipSpaceBack(s, j - 1) else j
  }

  /** `s.trim()`: `s` without its leading and trailing white space. */
  function Trim(s: string): (r: string)
    ensures r == [] || (!IsJsSpace(r[0]) && !IsJsSpace(r[|r| - 1]))
  {
    var a := SkipSpace(s, 0);
    var b := SkipSpaceBack(s, |s|);
    if a < b then s[a..b] else []
  }

  lemma {:induction false} SkippedAreSpaces(s: string, i: nat, k: nat)
    requires i <= |s| && i <= k < SkipSpace(s, i)
    ensures IsJsSpace(s[k])
    decreases |s| - i
  {
    if k > i {
      SkippedAreSpaces(s, i + 1, k);
    }
  }

  lemma {:induction false} SkippedBackAreSpaces(s: string, j: nat, k: nat)
    requires j <= |s| && SkipSpaceBack(s, j) <= k < j
    ensures IsJsSpace(s[k])
  {
    if k < j - 1 {
      SkippedBackAreSpaces(s, j - 1, k);
    }
  }

  /** `trim()` drops white space only, from both ends, and gives the empty
      string exactly when `s` is all white space. */
  lemma TrimDropsOnlySpace(s: string)
    ensures var a := SkipSpace(s, 0);
      var b := SkipSpaceBack(s, |s|);
      && (a < b ==> Trim(s) == s[a..b])
      && (forall k :: 0 <= k < |s| && (k < a || b <= k) ==> IsJsSpace(s[k]))
    ensures Trim(s) == [] <==> forall k :: 0 <= k < |s| ==> IsJsSpace(s[k])
  {
    var a := SkipSpace(s, 0);
    var b := SkipSpaceBack(s, |s|);
    forall k | 0 <= k < |s| && (k < a || b <= k) ensures IsJsSpace(s[k]) {
      if k < a {
        SkippedAreSpaces(s, 0, k);
      } else {
        SkippedBackAreSpaces(s, |s|, k);
      }
    }
  }

  /** The index of the first space at or after `i` (`|s|` when there is
      none). */
  function SpaceFrom(s: string, i: nat): (j: nat)
    requires i <= |s|
    ensures i <= j <= |s|
    ensures j < |s| ==> s[j] == ' '
    ensures forall k :: i <= k < j ==> s[k] != ' '
    decreases |s| - i
  {
    if i == |s| || s[i] == ' ' then i else SpaceFrom(s, i + 1)
  }

  /** `text.split(" ")[0]`: everything before the first space. */
  function FirstField(text: string): (r: string)
    ensures ' ' !in r
    ensures |r| <= |text| && text[..|r|] == r
    ensures |r| < |text| ==> text[|r|] == ' '
  {
    text[..SpaceFrom(text, 0)]
  }

  /** `hashText.split(" ")[0].trim()`: the first space-separated field of the
      hash file, trimmed. It holds no space and neither starts nor ends with
      white space. */
  function RemoteHash(text: string): (r: string)
    ensures ' ' !in r
    ensures r == [] || (!IsJsSpace(r[0]) && !IsJsSpace(r[|r| - 1]))
  {
    var field := FirstField(text);
    var r := Trim(field);
    assert forall i :: 0 <= i < |r| ==> r[i] in field by {
      var a := SkipSpace(field, 0);
      forall i | 0 <= i < |r| ensures r[i] in field {
        assert r[i] == field[a + i];
      }
    }
    r
  }

  lemma {:induction false} SpaceFromAt(s: string, i: nat, j: nat)
    requires i <= j <= |s|
    requires j == |s| || s[j] == ' '
    requires forall k :: i <= k < j ==> s[k] != ' '
    ensures SpaceFrom(s, i) == j
    decreases j - i
  {
    if i < j {
      SpaceFromAt(s, i + 1, j);
    }
  }

  /** A word without white space is left alone by `trim()`. */
  lemma NoSpaceTrims(h: string)
    requires NoJsSpace(h)
    ensures Trim(h) == h
  {
    if h != [] {
      assert SkipSpace(h, 0) == 0;
      assert SkipSpaceBack(h, |h|) == |h|;
      assert h[0..|h|] == h;
    }
  }

  /** A hash file in the `sha256sum` layout, `<hash> <file name>`, yields the
      hash. */
  lemma HashBeforeSpace(h: string, rest: string)
    requires NoJsSpace(h)
    ensures RemoteHash(h + " " + rest) == h
  {
    var t := h + " " + rest;
    SpaceFromAt(t, 0, |h|);
    assert FirstField(t) == h;
    NoSpaceTrims(h);
  }

  /** A hash file holding only the hash and a line end yields the hash. */
  lemma HashBeforeLineEnd(h: string)
    requires NoJsSpace(h)
    ensures RemoteHash(h + "\n") == h
  {
    var t := h + "\n";
    SpaceFromAt(t, 0, |t|);
    assert FirstField(t) == t;
    assert SkipSpaceBack(t, |t|) == SkipSpaceBack(t, |h|);
    if h == [] {
      assert SkipSpace(t, 0) == SkipSpace(t, 1);
    } else {
      assert SkipSpace(t, 0) == 0;
      assert SkipSpaceBack(t, |h|) == |h|;
      assert t[0..|h|] == h;
    }
  }

  /** A hash file that starts with a space yields the empty hash, with which
      nothing is downloaded. */
  lemma LeadingSpaceYieldsEmpty(rest: string)
    ensures RemoteHash(" " + rest) == ""
  {
    assert FirstField(" " + rest) == "";
  }

  // ---------------------------------------------------------------------
  // The synchronisation decision and its effects
  // ---------------------------------------------------------------------

  /** What fetching the hash file gives: its text, a response that is not ok,
      or a thrown error (no connection, unreadable body). */
  datatype HashFetch = HashText(text: string) | HashNotOk(status: int) | HashFetchThrew

  /** What fetching the database gives: its bytes, a response that is not
      ok, or a thrown error. */
  datatype DbFetch = DbBytes(data: seq<byte>) | DbNotOk(status: int) | DbFetchThrew

  /** The errors `initializeApp` lets escape. */
  datatype SyncError = CouldNotConnect | DownloadFailed(status: int) | DownloadThrew | VerificationFailed

  /** The outside calls of a run, in the order they are made. */
  datatype Effect = FetchHash | CloseConnection | FetchDb | WriteDb | SaveHash

  /** `public.db` in the app data directory (None when it does not exist) and
      the stored `databaseHash` setting. */
  datatype Replica = Replica(file: Option<seq<byte>>, storedHash: Option<string>)

  /** The state after a run, the calls it made, and the error it threw, if any. */
  datatype Run = Run(replica: Replica, effects: seq<Effect>, error: Option<SyncError>)

  /** `storedHash`, when set, is the hex digest of the bytes on disk. */
  predicate Consistent(r: Replica, sha256: seq<byte> -> seq<byte>) {
    r.storedHash.Some? ==> r.file.Some? && r.storedHash.value == DigestHex(sha256(r.file.value))
  }

  /** `downloadAndWriteDb`: close the connection, fetch, check the digest
      case-sensitively against `remoteHash`, and only then truncate-write the
      file. Any failure leaves file and stored hash as they were. */
  function DownloadAndWrite(r: Replica, remoteHash: string, fetched: DbFetch, sha256: seq<byte> -> seq<byte>): (run: Run)
    ensures run.error.None? <==> fetched.DbBytes? && DigestHex(sha256(fetched.data)) == remoteHash
    ensures run.error.None? ==> run.replica == Replica(Some(fetched.data), r.storedHash)
    ensures run.error.None? ==> run.effects == [CloseConnection, FetchDb, WriteDb]
    ensures run.error.Some? ==> run.replica == r && run.effects == [CloseConnection, FetchDb]
  {
    var attempted := [CloseConnection, FetchDb];
    match fetched
    case DbNotOk(status) => Run(r, attempted, Some(DownloadFailed(status)))
    case DbFetchThrew => Run(r, attempted, Some(DownloadThrew))
    case DbBytes(bytes) =>
      if DigestHex(sha256(bytes)) != remoteHash then Run(r, attempted, Some(VerificationFailed))
      else Run(r.(file := Some(bytes)), attempted + [WriteDb], None)
  }

  /** Whether a run downloads: the remote hash is not empty, and there is no
      local database or the stored hash differs from it (case-sensitively). */
  predicate NeedsDownload(r: Replica, remoteHash: string) {
    remoteHash != "" && (r.file.None? || r.storedHash != Some(remoteHash))
  }

  /** The rest of a run once the remote hash is known: download, verify and
      write when needed, then save the hash. A failure leaves file and stored
      hash as they were. */
  function Synchronise(r: Replica, remoteHash: string, fetched: DbFetch, sha256: seq<byte> -> seq<byte>): (run: Run)
    ensures run.error.Some? ==> run.replica == r
  {
    if NeedsDownload(r, remoteHash) then
      var d := DownloadAndWrite(r, remoteHash, fetched, sha256);
      if d.error.Some? then Run(r, [FetchHash] + d.effects, d.error)
      else Run(d.replica.(storedHash := Some(remoteHash)), [FetchHash] + d.effects + [SaveHash], None)
    else Run(r, [FetchHash], None)
  }

  /** The database part of `initializeApp`: without the hash file a run
      goes on offline when a local database exists and throws otherwise. */
  function InitializeDb(r: Replica, hash: HashFetch, fetched: DbFetch, sha256: seq<byte> -> seq<byte>): (run: Run)
    ensures run.error.Some? ==> run.replica == r
  {
    match hash
    case HashText(text) => Synchronise(r, RemoteHash(text), fetched, sha256)
    case _ => Run(r, [FetchHash], if r.file.Some? then None else Some(CouldNotConnect))
  }

  /** A run fetches the database exactly when the remote hash calls for a
      download; a run that does not leaves file and stored hash alone. */
  lemma DownloadsExactlyWhenNeeded(r: Replica, hash: HashFetch, fetched: DbFetch, sha256: seq<byte> -> seq<byte>)
    ensures var run := InitializeDb(r, hash, fetched, sha256);
      && (FetchDb in run.effects <==> hash.HashText? && NeedsDownload(r, RemoteHash(hash.text)))
      && (!(FetchDb in run.effects) ==> run.replica == r)
  {
  }

  /** A run that saves the hash has written a file whose digest is that hash. */
  lemma SavedHashIsDigest(r: Replica, hash: HashFetch, fetched: DbFetch, sha256: seq<byte> -> seq<byte>)
    ensures var run := InitializeDb(r, hash, fetched, sha256);
      SaveHash in run.effects ==>
        && hash.HashText?
        && run.error.None?
        && run.replica.file.Some?
        && run.replica.storedHash == Some(RemoteHash(hash.text))
        && run.replica.storedHash == Some(DigestHex(sha256(run.replica.file.value)))
  {
    if hash.HashText? {
      var h := RemoteHash(hash.text);
      if NeedsDownload(r, h) {
        var d := DownloadAndWrite(r, h, fetched, sha256);
        if d.error.Some? {
          assert InitializeDb(r, hash, fetched, sha256).effects == [FetchHash, CloseConnection, FetchDb];
        }
      } else {
        assert InitializeDb(r, hash, fetched, sha256).effects == [FetchHash];
      }
    }
  }

  /** When the hash file cannot be had, a run with a local database returns
      quietly and one without it throws; neither touches anything. */
  lemma OfflineOrFatal(r: Replica, hash: HashFetch, fetched: DbFetch, sha256: seq<byte> -> seq<byte>)
    requires !hash.HashText?
    ensures var run := InitializeDb(r, hash, fetched, sha256);
      && run.replica == r
      && run.effects == [FetchHash]
      && (run.error.None? <==> r.file.Some?)
      && (run.error.Some? ==> run.error.value == CouldNotConnect)
  {
  }

  /** A failed download or verification escapes even when a local database
      exists: it is not turned into offline mode. */
  lemma DownloadErrorsEscape(r: Replica, text: string, fetched: DbFetch, sha256: seq<byte> -> seq<byte>)
    requires NeedsDownload(r, RemoteHash(text))
    requires !fetched.DbBytes? || DigestHex(sha256(fetched.data)) != RemoteHash(text)
    ensures var run := InitializeDb(r, HashText(text), fetched, sha256);
      && run.replica == r
      && run.error == Some(
           match fetched
           case DbNotOk(status) => DownloadFailed(status)
           case DbFetchThrew => DownloadThrew
           case DbBytes(_) => VerificationFailed)
  {
  }

  /** A run makes one of three call sequences: the hash fetch alone; the
      hash fetch, closing the connection and the failed or unverified
      download; or all of those followed by the write and the saved hash. So
      the connection is closed before the database is fetched, and the hash
      is saved only after the file is written. */
  lemma CallSequences(r: Replica, hash: HashFetch, fetched: DbFetch, sha256: seq<byte> -> seq<byte>)
    ensures var e := InitializeDb(r, hash, fetched, sha256).effects;
      || e == [FetchHash]
      || e == [FetchHash, CloseConnection, FetchDb]
      || e == [FetchHash, CloseConnection, FetchDb, WriteDb, SaveHash]
  {
    if hash.HashText? && NeedsDownload(r, RemoteHash(hash.text)) {
      var d := DownloadAndWrite(r, RemoteHash(hash.text), fetched, sha256);
      if d.error.None? {
        assert [FetchHash] + d.effects + [SaveHash] == [FetchHash, CloseConnection, FetchDb, WriteDb, SaveHash];
      } else {
        assert [FetchHash] + d.effects == [FetchHash, CloseConnection, FetchDb];
      }
    }
  }

  /** A run keeps the stored hash equal to the digest of the file on disk
      whenever it was so before. */
  lemma RunKeepsConsistent(r: Replica, hash: HashFetch, fetched: DbFetch, sha256: seq<byte> -> seq<byte>)
    requires Consistent(r, sha256)
    ensures Consistent(InitializeDb(r, hash, fetched, sha256).replica, sha256)
  {
  }

  /** A second run against an unchanged hash file after a successful one
      downloads nothing and changes nothing. */
  lemma SecondRunIsNoOp(r: Replica, text: string, fetched1: DbFetch, fetched2: DbFetch, sha256: seq<byte> -> seq<byte>)
    requires InitializeDb(r, HashText(text), fetched1, sha256).error.None?
    ensures var first := InitializeDb(r, HashText(text), fetched1, sha256);
      var second := InitializeDb(first.replica, HashText(text), fetched2, sha256);
      && second.replica == first.replica
      && second.effects == [FetchHash]
      && second.error.None?
  {
  }

  /** A remote hash with a character that is not a lowercase hex digit (an
      uppercase one, say) never verifies: the run that needs a download throws. */
  lemma NonLowercaseHashNeverVerifies(r: Replica, text: string, fetched: DbFetch, sha256: seq<byte> -> seq<byte>)
    requires NeedsDownload(r, RemoteHash(text))
    requires !IsLowerHex(RemoteHash(text))
    ensures InitializeDb(r, HashText(text), fetched, sha256).error.Some?
    ensures InitializeDb(r, HashText(text), fetched, sha256).replica == r
  {
    if fetched.DbBytes? {
      DigestHexIsLower(sha256(fetched.data));
    }
  }

  // ---------------------------------------------------------------------
  // The imperative sequence
  // ---------------------------------------------------------------------

  /** The device state `initializeApp` works on: the database file, the
      stored hash, the record of outside calls made, and the catalog's
      connection cache. */
  class App {
    var file: Option<seq<byte>>
    var storedHash: Option<string>
    var effects: seq<Effect>
    const connection: FilmDatabase.Connection

    function State(): Replica
      reads this
    {
      Replica(file, storedHash)
    }

    constructor (file: Option<seq<byte>>, storedHash: Option<string>, connection: FilmDatabase.Connection)
      ensures this.file == file && this.storedHash == storedHash
      ensures this.connection == connection && effects == []
    {
      this.file := file;
      this.storedHash := storedHash;
      this.connection := connection;
      effects := [];
    }

    /** `downloadAndWriteDb(remoteHash)` */
    method DownloadAndWriteDb(remoteHash: string, fetched: DbFetch, sha256: seq<byte> -> seq<byte>)
      returns (error: Option<SyncError>)
      requires connection.Valid()
      modifies this, connection
      ensures connection.Valid() && connection.db.None?
      ensures connection.initialization == (if old(connection.db).Some? then FilmDatabase.NoPromise else old(connection.initialization))
      ensures connection.loads == old(connection.loads)
      ensures var run := DownloadAndWrite(old(State()), remoteHash, fetched, sha256);
        State() == run.replica && effects == old(effects) + run.effects && error == run.error
    {
      connection.Close();
      effects := effects + [CloseConnection];

      effects := effects + [FetchDb];
      if fetched.DbNotOk? {
        return Some(DownloadFailed(fetched.status));
      }
      if fetched.DbFetchThrew? {
        return Some(DownloadThrew);
      }
      var dbBytes := fetched.data;
      var actualHash := DigestHex(sha256(dbBytes));
      if actualHash != remoteHash {
        return Some(VerificationFailed);
      }

      file := Some(dbBytes);
      effects := effects + [WriteDb];
      return None;
    }

    /** The database part of `initializeApp`, after settings and
        authentication are loaded. */
    method InitializeApp(hash: HashFetch, fetched: DbFetch, sha256: seq<byte> -> seq<byte>)
      returns (error: Option<SyncError>)
      requires connection.Valid()
      modifies this, connection
      ensures connection.Valid()
      ensures var run := InitializeDb(old(State()), hash, fetched, sha256);
        && State() == run.replica
        && effects == old(effects) + run.effects
        && error == run.error
      ensures if hash.HashText? && NeedsDownload(old(State()), RemoteHash(hash.text))
        then
          && connection.db.None?
          && connection.initialization == (if old(connection.db).Some? then FilmDatabase.NoPromise else old(connection.initialization))
          && connection.loads == old(connection.loads)
        else
          && connection.db == old(connection.db)
          && connection.initialization == old(connection.initialization)
          && connection.loads == old(connection.loads)
    {
      ghost var r0 := State();
      ghost var e0 := effects;
      var dbExists := file.Some?;
      effects := effects + [FetchHash];
      if !hash.HashText? {
        assert InitializeDb(r0, hash, fetched, sha256)
          == Run(r0, [FetchHash], if dbExists then None else Some(CouldNotConnect));
        if !dbExists {
          return Some(CouldNotConnect);
        }
        return None;
      }
      var remoteHash := RemoteHash(hash.text);
      assert InitializeDb(r0, hash, fetched, sha256) == Synchronise(r0, remoteHash, fetched, sha256);

      var localHash := storedHash;
      if remoteHash != "" && (!dbExists || localHash != Some(remoteHash)) {
        assert NeedsDownload(r0, remoteHash);
        ghost var d := DownloadAndWrite(r0, remoteHash, fetched, sha256);
        error := DownloadAndWriteDb(remoteHash, fetched, sha256);
        assert effects == e0 + ([FetchHash] + d.effects);
        if error.Some? {
          assert Synchronise(r0, remoteHash, fetched, sha256) == Run(r0, [FetchHash] + d.effects, d.error);
          return error;
        }
        assert Synchronise(r0, remoteHash, fetched, sha256)
          == Run(d.replica.(storedHash := Some(remoteHash)), [FetchHash] + d.effects + [SaveHash], None);
        storedHash := Some(remoteHash);
        effects := effects + [SaveHash];
        assert effects == e0 + ([FetchHash] + d.effects + [SaveHash]);
      } else {
        assert Synchronise(r0, remoteHash, fetched, sha256) == Run(r0, [FetchHash], None);
      }
      return None;
    }
  }
}
