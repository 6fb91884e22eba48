/** Rotating data and blind-index keys without stranding a row. */
module KeyRotation {
  import opened Results
  import opened Ordering

  datatype KeyState = Pending | Active | DecryptOnly | Retired

  datatype KeyVersion = KeyVersion(version: int, state: KeyState, secretReference: string, createdAt: string, compromised: bool)

  datatype Purpose = SensitiveData | BlindIndex

  datatype KeyRing = KeyRing(purpose: Purpose, versions: seq<KeyVersion>)

  datatype Progress = Progress(fromVersion: int, toVersion: int, totalRows: int, reencryptedRows: int, verifiedRows: int, failedRows: int)

  const NO_ACTIVE := "KEY_NO_ACTIVE_VERSION"
  const MULTIPLE_ACTIVE := "KEY_MULTIPLE_ACTIVE_VERSIONS"
  const STATE_INVALID := "KEY_STATE_INVALID"
  const UNKNOWN := "KEY_VERSION_UNKNOWN"
  const RETIRED := "KEY_VERSION_RETIRED"
  const NON_ACTIVE_WRITE := "KEY_WRITE_TO_NON_ACTIVE_VERSION"
  const INCOMPLETE := "KEY_ROTATION_INCOMPLETE"
  const NOT_VERIFIED := "KEY_ROTATION_NOT_VERIFIED"
  const INDEX_RETAINED := "KEY_COMPROMISED_INDEX_RETAINED"

  /* ---- The checks; each returns the code it throws ---- */

  function ActiveVersions(versions: seq<KeyVersion>): seq<KeyVersion> {
    if versions == [] then []
    else (if versions[0].state == Active then [versions[0]] else []) + ActiveVersions(versions[1..])
  }

  predicate DistinctNumbers(versions: seq<KeyVersion>) {
    forall i, j :: 0 <= i < j < |versions| ==> versions[i].version != versions[j].version
  }

  function CheckSane(ring: KeyRing): Option<string> {
    if ring.versions == [] then Some(NO_ACTIVE)
    else if ActiveVersions(ring.versions) == [] then Some(NO_ACTIVE)
    else if |ActiveVersions(ring.versions)| > 1 then Some(MULTIPLE_ACTIVE)
    else if !DistinctNumbers(ring.versions) then Some(STATE_INVALID)
    else None
  }

  function ActiveKeyVersion(ring: KeyRing): Result<KeyVersion> {
    match CheckSane(ring)
    case Some(e) => Err(e)
    case None => Ok(ActiveVersions(ring.versions)[0])
  }

  function RotationRequired(ring: KeyRing): Result<bool> {
    match ActiveKeyVersion(ring)
    case Err(e) => Err(e)
    case Ok(active) => Ok(active.compromised)
  }

  function CheckWritable(ring: KeyRing, version: int): Option<string> {
    match ActiveKeyVersion(ring)
    case Err(e) => Some(e)
    case Ok(active) => if version != active.version then Some(NON_ACTIVE_WRITE) else None
  }

  /** The first version of this number. */
  function Find(versions: seq<KeyVersion>, version: int): Option<KeyVersion> {
    if versions == [] then None
    else if versions[0].version == version then Some(versions[0])
    else Find(versions[1..], version)
  }

  function CheckReadable(ring: KeyRing, version: int): Option<string> {
    match Find(ring.versions, version)
    case None => Some(UNKNOWN)
    case Some(found) =>
      if found.state == Retired then Some(RETIRED) else if found.state == Pending then Some(STATE_INVALID) else None
  }

  function CheckComplete(progress: Progress): Option<string> {
    if progress.failedRows > 0 then Some(INCOMPLETE)
    else if progress.reencryptedRows < progress.totalRows then Some(INCOMPLETE)
    else if progress.verifiedRows < progress.totalRows then Some(NOT_VERIFIED)
    else None
  }

  /* ---- The lifecycle ---- */

  /** The versions with one number's state, and then another's, replaced. */
  function Restate(versions: seq<KeyVersion>, first: int, firstState: KeyState, second: int, secondState: KeyState): (r: seq<KeyVersion>)
    ensures |r| == |versions|
    ensures forall i :: 0 <= i < |r| ==> r[i] == versions[i].(state := StateAfter(versions[i], first, firstState, second, secondState))
  {
    seq(|versions|, i requires 0 <= i < |versions| =>
      versions[i].(state := StateAfter(versions[i], first, firstState, second, secondState)))
  }

  function StateAfter(v: KeyVersion, first: int, firstState: KeyState, second: int, secondState: KeyState): KeyState {
    if v.version == first then firstState else if v.version == second then secondState else v.state
  }

  function BeginDualRead(ring: KeyRing, toVersion: int): Result<KeyRing> {
    match ActiveKeyVersion(ring)
    case Err(e) => Err(e)
    case Ok(current) =>
      match Find(ring.versions, toVersion)
      case None => Err(UNKNOWN)
      case Some(next) =>
        if next.state != Pending || next.compromised then Err(STATE_INVALID)
        else Ok(ring.(versions := Restate(ring.versions, toVersion, Active, current.version, DecryptOnly)))
  }

  function RetireOldVersion(ring: KeyRing, progress: Progress): Result<KeyRing> {
    match CheckComplete(progress)
    case Some(e) => Err(e)
    case None =>
      match CheckReadable(ring, progress.fromVersion)
      case Some(e) => Err(e)
      case None =>
        Ok(ring.(versions := Restate(ring.versions, progress.fromVersion, Retired, progress.fromVersion, Retired)))
  }

  function RollbackRotation(ring: KeyRing, progress: Progress): Result<KeyRing> {
    match Find(ring.versions, progress.fromVersion)
    case None => Err(UNKNOWN)
    case Some(source) =>
      if source.state == Retired || source.compromised then Err(STATE_INVALID)
      else Ok(ring.(versions := Restate(ring.versions, progress.fromVersion, Active, progress.toVersion, Pending)))
  }

  /* ---- Sane rings ---- */

  predicate Sane(ring: KeyRing) {
    CheckSane(ring) == None
  }

  predicate IsActiveAt(versions: seq<KeyVersion>, k: nat) {
    k < |versions| && forall i :: 0 <= i < |versions| ==> (versions[i].state == Active <==> i == k)
  }

  lemma {:induction false} NoActive(versions: seq<KeyVersion>)
    ensures ActiveVersions(versions) == [] <==> forall i :: 0 <= i < |versions| ==> versions[i].state != Active
  {
    if versions != [] {
      NoActive(versions[1..]);
      if forall i :: 0 <= i < |versions| ==> versions[i].state != Active {
        assert forall i :: 0 <= i < |versions[1..]| ==> versions[1..][i] == versions[i + 1];
      }
      if ActiveVersions(versions) == [] {
        forall i | 0 <= i < |versions| ensures versions[i].state != Active {
          if i > 0 {
            assert versions[i] == versions[1..][i - 1];
          }
        }
      }
    }
  }

  lemma {:induction false} OneActive(versions: seq<KeyVersion>, k: nat)
    requires IsActiveAt(versions, k)
    ensures ActiveVersions(versions) == [versions[k]]
  {
    var rest := versions[1..];
    if k == 0 {
      assert forall i :: 0 <= i < |rest| ==> rest[i] == versions[i + 1];
      NoActive(rest);
    } else {
      assert IsActiveAt(rest, k - 1);
      OneActive(rest, k - 1);
    }
  }

  lemma {:induction false} ActiveIsOne(versions: seq<KeyVersion>) returns (k: nat)
    requires |ActiveVersions(versions)| == 1
    ensures IsActiveAt(versions, k) && ActiveVersions(versions) == [versions[k]]
  {
    var rest := versions[1..];
    if versions[0].state == Active {
      k := 0;
      assert ActiveVersions(rest) == [];
      NoActive(rest);
      forall i | 0 < i < |versions| ensures versions[i].state != Active {
        assert versions[i] == rest[i - 1];
      }
    } else {
      var j := ActiveIsOne(rest);
      k := j + 1;
      forall i | 0 <= i < |versions| ensures versions[i].state == Active <==> i == k {
        if i > 0 {
          assert versions[i] == rest[i - 1];
        }
      }
    }
  }

  /** A sane ring has distinct version numbers and exactly one active version. */
  lemma SaneMeans(ring: KeyRing)
    ensures Sane(ring) <==> DistinctNumbers(ring.versions) && exists k :: IsActiveAt(ring.versions, k)
  {
    if Sane(ring) {
      var k := ActiveIsOne(ring.versions);
    }
    if k :| IsActiveAt(ring.versions, k) {
      OneActive(ring.versions, k);
    }
  }

  lemma SaneActive(ring: KeyRing) returns (k: nat)
    requires Sane(ring)
    ensures IsActiveAt(ring.versions, k) && ActiveKeyVersion(ring) == Ok(ring.versions[k])
  {
    k := ActiveIsOne(ring.versions);
  }

  lemma {:induction false} FindAt(versions: seq<KeyVersion>, i: nat)
    requires DistinctNumbers(versions) && i < |versions|
    ensures Find(versions, versions[i].version) == Some(versions[i])
  {
    if i > 0 {
      assert versions[1..][i - 1] == versions[i];
      assert DistinctNumbers(versions[1..]);
      FindAt(versions[1..], i - 1);
    }
  }

  lemma {:induction false} FindIndex(versions: seq<KeyVersion>, version: int) returns (i: nat)
    requires Find(versions, version).Some?
    ensures i < |versions| && versions[i] == Find(versions, version).value && versions[i].version == version
  {
    if versions[0].version == version {
      i := 0;
    } else {
      var j := FindIndex(versions[1..], version);
      i := j + 1;
    }
  }

  lemma RestateDistinct(versions: seq<KeyVersion>, first: int, firstState: KeyState, second: int, secondState: KeyState)
    requires DistinctNumbers(versions)
    ensures DistinctNumbers(Restate(versions, first, firstState, second, secondState))
  {
  }

  /** A version that is neither pending nor retired. */
  predicate ReadableState(state: KeyState) {
    state == Active || state == DecryptOnly
  }

  lemma ReadableAt(ring: KeyRing, i: nat)
    requires DistinctNumbers(ring.versions) && i < |ring.versions|
    ensures CheckReadable(ring, ring.versions[i].version) == None <==> ReadableState(ring.versions[i].state)
  {
    FindAt(ring.versions, i);
  }

  lemma ReadableIndex(ring: KeyRing, version: int) returns (i: nat)
    requires CheckReadable(ring, version) == None
    ensures i < |ring.versions| && ring.versions[i].version == version && ReadableState(ring.versions[i].state)
  {
    i := FindIndex(ring.versions, version);
  }

  /** Promotion keeps the ring sane and everything readable readable; the new version becomes active. */
  lemma BeginKeeps(ring: KeyRing, toVersion: int)
    requires BeginDualRead(ring, toVersion).Ok?
    ensures var next := BeginDualRead(ring, toVersion).value;
            && Sane(ring) && Sane(next)
            && CheckWritable(next, toVersion) == None && RotationRequired(next) == Ok(false)
            && forall v :: CheckReadable(ring, v) == None ==> CheckReadable(next, v) == None
  {
    hide ActiveVersions;
    var next := BeginDualRead(ring, toVersion).value;
    var k := SaneActive(ring);
    var j := FindIndex(ring.versions, toVersion);
    RestateDistinct(ring.versions, toVersion, Active, ring.versions[k].version, DecryptOnly);
    assert IsActiveAt(next.versions, j);
    SaneMeans(next);
    var a := SaneActive(next);
    assert a == j;
    forall v | CheckReadable(ring, v) == None ensures CheckReadable(next, v) == None {
      var i := ReadableIndex(ring, v);
      ReadableAt(next, i);
    }
  }

  /** Retiring keeps the ring sane exactly when the retired version is not the active one. */
  lemma RetireKeeps(ring: KeyRing, progress: Progress)
    requires Sane(ring) && RetireOldVersion(ring, progress).Ok?
    ensures Sane(RetireOldVersion(ring, progress).value) <==> ActiveKeyVersion(ring).value.version != progress.fromVersion
  {
    hide ActiveVersions;
    var next := RetireOldVersion(ring, progress).value;
    var k := SaneActive(ring);
    RestateDistinct(ring.versions, progress.fromVersion, Retired, progress.fromVersion, Retired);
    SaneMeans(next);
    if ring.versions[k].version != progress.fromVersion {
      assert IsActiveAt(next.versions, k);
    } else {
      assert forall i :: 0 <= i < |next.versions| ==> next.versions[i].state != Active;
      forall a: nat ensures !IsActiveAt(next.versions, a) {
        if a < |next.versions| {
          assert next.versions[a].state != Active;
        }
      }
    }
  }

  /** Retiring takes away the readability of the retired version, and of no other. */
  lemma RetireReads(ring: KeyRing, progress: Progress, version: int)
    requires DistinctNumbers(ring.versions) && RetireOldVersion(ring, progress).Ok?
    ensures CheckReadable(RetireOldVersion(ring, progress).value, version) == None
       <==> CheckReadable(ring, version) == None && version != progress.fromVersion
  {
    hide ActiveVersions;
    var next := RetireOldVersion(ring, progress).value;
    RestateDistinct(ring.versions, progress.fromVersion, Retired, progress.fromVersion, Retired);
    if CheckReadable(ring, version) == None {
      var i := ReadableIndex(ring, version);
      ReadableAt(next, i);
    }
    if CheckReadable(next, version) == None {
      var i := ReadableIndex(next, version);
      ReadableAt(ring, i);
    }
  }

  /** Rolling a promotion back restores the ring exactly, unless the old key is known to have leaked. */
  lemma RollbackInverts(ring: KeyRing, toVersion: int, progress: Progress)
    requires BeginDualRead(ring, toVersion).Ok?
    requires progress.fromVersion == ActiveKeyVersion(ring).value.version && progress.toVersion == toVersion
    ensures var next := BeginDualRead(ring, toVersion).value;
            && (RollbackRotation(next, progress) == Ok(ring) <==> !ActiveKeyVersion(ring).value.compromised)
            && (ActiveKeyVersion(ring).value.compromised ==> RollbackRotation(next, progress) == Err(STATE_INVALID))
  {
    hide ActiveVersions;
    var next := BeginDualRead(ring, toVersion).value;
    var k := SaneActive(ring);
    var j := FindIndex(ring.versions, toVersion);
    RestateDistinct(ring.versions, toVersion, Active, ring.versions[k].version, DecryptOnly);
    FindAt(next.versions, k);
    assert next.versions[k].version == progress.fromVersion;
    if !ring.versions[k].compromised {
      var back := RollbackRotation(next, progress).value;
      forall i | 0 <= i < |ring.versions| ensures back.versions[i] == ring.versions[i] {
        assert next.versions[i].version == ring.versions[i].version;
        if i != k && i != j {
          assert ring.versions[i].version != ring.versions[k].version && ring.versions[i].version != ring.versions[j].version;
        }
      }
      assert back.versions == ring.versions;
    }
  }

  /* ---- Whole runs ---- */

  /**
   * Stored rows by the version they are encrypted under; for each demoted version, how many rows
   * it had when it was demoted and how many of them have been re-encrypted since.
   */
  datatype World = World(ring: KeyRing, rows: map<int, int>, total: map<int, int>, reencrypted: map<int, int>)

  datatype Step =
    | Provision(key: KeyVersion)
    | Begin(toVersion: int)
    | Write(row: int, version: int)
    | Reencrypt(row: int)
    | Retire(progress: Progress)

  function RowsUnder(rows: map<int, int>, version: int): set<int> {
    set r | r in rows && rows[r] == version
  }

  /** The rotation's counters are the real ones, for a version that has been demoted. */
  predicate Truthful(w: World, progress: Progress) {
    && progress.fromVersion in w.total && progress.fromVersion in w.reencrypted
    && progress.totalRows == w.total[progress.fromVersion]
    && progress.reencryptedRows == w.reencrypted[progress.fromVersion]
  }

  /** A refused step changes nothing. */
  function Apply(w: World, step: Step): World {
    match step
    case Provision(key) =>
      if key.state == Pending && Find(w.ring.versions, key.version) == None
      then w.(ring := w.ring.(versions := w.ring.versions + [key])) else w
    case Begin(to) =>
      (match (ActiveKeyVersion(w.ring), BeginDualRead(w.ring, to))
       case (Ok(current), Ok(ring)) =>
         w.(ring := ring, total := w.total[current.version := |RowsUnder(w.rows, current.version)|],
            reencrypted := w.reencrypted[current.version := 0])
       case _ => w)
    case Write(row, version) =>
      if CheckWritable(w.ring, version) == None then w.(rows := w.rows[row := version]) else w
    case Reencrypt(row) =>
      if row !in w.rows || CheckReadable(w.ring, w.rows[row]) != None then w
      else (match ActiveKeyVersion(w.ring)
        case Err(_) => w
        case Ok(active) =>
          var from := w.rows[row];
          w.(rows := w.rows[row := active.version],
             reencrypted := if from in w.reencrypted && from != active.version
                            then w.reencrypted[from := w.reencrypted[from] + 1] else w.reencrypted))
    case Retire(progress) =>
      if !Truthful(w, progress) then w
      else match RetireOldVersion(w.ring, progress)
        case Err(_) => w
        case Ok(ring) => w.(ring := ring)
  }

  function Run(w: World, steps: seq<Step>): World {
    if steps == [] then w else Apply(Run(w, steps[..|steps| - 1]), steps[|steps| - 1])
  }

  /** Every stored row can be decrypted. */
  ghost predicate AllReadable(w: World) {
    forall r :: r in w.rows ==> CheckReadable(w.ring, w.rows[r]) == None
  }

  /** The counters cover the rows that remain under a demoted version, which never is the active one. */
  ghost predicate Counted(w: World) {
    && w.total.Keys == w.reencrypted.Keys
    && (forall v :: v in w.total ==> |RowsUnder(w.rows, v)| + w.reencrypted[v] <= w.total[v])
    && (Sane(w.ring) ==> ActiveKeyVersion(w.ring).value.version !in w.total)
    && (forall i :: 0 <= i < |w.ring.versions| && w.ring.versions[i].state == Pending ==> w.ring.versions[i].version !in w.total)
    && (forall v :: v in w.total ==> HasVersion(w.ring.versions, v))
  }

  ghost predicate HasVersion(versions: seq<KeyVersion>, version: int) {
    exists i :: 0 <= i < |versions| && versions[i].version == version
  }

  lemma HasVersionAt(versions: seq<KeyVersion>, i: nat)
    requires i < |versions|
    ensures HasVersion(versions, versions[i].version)
  {
  }

  lemma HasVersionKept(before: seq<KeyVersion>, after: seq<KeyVersion>, version: int)
    requires HasVersion(before, version) && |before| <= |after|
    requires forall i :: 0 <= i < |before| ==> after[i].version == before[i].version
    ensures HasVersion(after, version)
  {
    var i :| 0 <= i < |before| && before[i].version == version;
    assert after[i].version == version;
  }

  ghost predicate Safe(w: World) {
    Sane(w.ring) && AllReadable(w) && Counted(w)
  }

  lemma ProvisionSafe(w: World, key: KeyVersion)
    requires Safe(w)
    ensures Safe(Apply(w, Provision(key)))
  {
    hide ActiveVersions, RowsUnder;
    var next := Apply(w, Provision(key));
    if next != w {
      NotFound(w.ring.versions, key.version);
      var k := SaneActive(w.ring);
      assert IsActiveAt(next.ring.versions, k);
      SaneMeans(next.ring);
      var a := SaneActive(next.ring);
      assert a == k;
      forall r | r in w.rows ensures CheckReadable(next.ring, w.rows[r]) == None {
        var i := ReadableIndex(w.ring, w.rows[r]);
        ReadableAt(next.ring, i);
      }
      forall v | v in w.total ensures HasVersion(next.ring.versions, v) {
        HasVersionKept(w.ring.versions, next.ring.versions, v);
      }
    }
  }

  lemma {:induction false} NotFound(versions: seq<KeyVersion>, version: int)
    requires Find(versions, version) == None
    ensures forall i :: 0 <= i < |versions| ==> versions[i].version != version
  {
    if versions != [] {
      NotFound(versions[1..], version);
      forall i | 0 <= i < |versions| ensures versions[i].version != version {
        if i > 0 {
          assert versions[i] == versions[1..][i - 1];
        }
      }
    }
  }

  lemma BeginSafe(w: World, to: int)
    requires Safe(w)
    ensures Safe(Apply(w, Begin(to)))
  {
    hide ActiveVersions, RowsUnder, HasVersion;
    var next := Apply(w, Begin(to));
    if BeginDualRead(w.ring, to).Ok? {
      BeginKeeps(w.ring, to);
      var k := SaneActive(w.ring);
      var j := FindIndex(w.ring.versions, to);
      var a := SaneActive(next.ring);
      assert next.ring.versions[j].state == Active;
      assert a == j;
      HasVersionAt(w.ring.versions, k);
      forall v | v in next.total ensures HasVersion(next.ring.versions, v) {
        HasVersionKept(w.ring.versions, next.ring.versions, v);
      }
    }
  }

  /** Storing a row under another version takes it from the rows of its old one. */
  lemma RowMoves(rows: map<int, int>, row: int, version: int, v: int)
    requires v != version
    ensures |RowsUnder(rows[row := version], v)| == |RowsUnder(rows, v)| - (if row in rows && rows[row] == v then 1 else 0)
  {
    var before, after := RowsUnder(rows, v), RowsUnder(rows[row := version], v);
    if row in rows && rows[row] == v {
      assert before == after + {row};
    } else {
      assert before == after;
    }
  }

  lemma WriteSafe(w: World, row: int, version: int)
    requires Safe(w)
    ensures Safe(Apply(w, Write(row, version)))
  {
    hide ActiveVersions, RowsUnder;
    var k := SaneActive(w.ring);
    ReadableAt(w.ring, k);
    if CheckWritable(w.ring, version) == None {
      forall v | v in w.total ensures |RowsUnder(w.rows[row := version], v)| <= |RowsUnder(w.rows, v)| {
        RowMoves(w.rows, row, version, v);
      }
    }
  }

  lemma ReencryptSafe(w: World, row: int)
    requires Safe(w)
    ensures Safe(Apply(w, Reencrypt(row)))
  {
    hide ActiveVersions, RowsUnder;
    var k := SaneActive(w.ring);
    var active := w.ring.versions[k].version;
    ReadableAt(w.ring, k);
    var next := Apply(w, Reencrypt(row));
    if next != w {
      forall v | v in w.total ensures |RowsUnder(next.rows, v)| + next.reencrypted[v] <= w.total[v] {
        RowMoves(w.rows, row, active, v);
      }
    }
  }

  lemma RetireSafe(w: World, progress: Progress)
    requires Safe(w)
    ensures Safe(Apply(w, Retire(progress)))
  {
    hide ActiveVersions, RowsUnder, HasVersion;
    var next := Apply(w, Retire(progress));
    if next != w {
      var from := progress.fromVersion;
      var k := SaneActive(w.ring);
      RetireKeeps(w.ring, progress);
      var a := SaneActive(next.ring);
      assert w.ring.versions[k].version != from;
      assert next.ring.versions[k].state == Active;
      assert a == k;
      assert |RowsUnder(w.rows, from)| == 0;
      NoneUnder(w.rows, from);
      forall r | r in w.rows ensures CheckReadable(next.ring, w.rows[r]) == None {
        RetireReads(w.ring, progress, w.rows[r]);
      }
      forall v | v in w.total ensures HasVersion(next.ring.versions, v) {
        HasVersionKept(w.ring.versions, next.ring.versions, v);
      }
    }
  }

  lemma NoneUnder(rows: map<int, int>, version: int)
    requires |RowsUnder(rows, version)| == 0
    ensures forall r :: r in rows ==> rows[r] != version
  {
    assert RowsUnder(rows, version) == {};
    forall r | r in rows ensures rows[r] != version {
      assert r !in RowsUnder(rows, version);
    }
  }

  lemma StepSafe(w: World, step: Step)
    requires Safe(w)
    ensures Safe(Apply(w, step))
  {
    hide Safe, Apply;
    match step
    case Provision(key) => ProvisionSafe(w, key);
    case Begin(to) => BeginSafe(w, to);
    case Write(row, version) => WriteSafe(w, row, version);
    case Reencrypt(row) => ReencryptSafe(w, row);
    case Retire(progress) => RetireSafe(w, progress);
  }

  /** No run of the protocol strands a row: one version stays active and every row readable. */
  lemma {:induction false} RunSafe(w: World, steps: seq<Step>)
    requires Safe(w)
    ensures Safe(Run(w, steps))
  {
    hide Safe, Apply;
    if steps != [] {
      RunSafe(w, steps[..|steps| - 1]);
      StepSafe(Run(w, steps[..|steps| - 1]), steps[|steps| - 1]);
    }
  }

  /** A store whose rows are all under the active version, before any rotation. */
  lemma FreshSafe(ring: KeyRing, rows: map<int, int>)
    requires Sane(ring) && forall r :: r in rows ==> rows[r] == ActiveKeyVersion(ring).value.version
    ensures Safe(World(ring, rows, map[], map[]))
  {
    hide ActiveVersions;
    var k := SaneActive(ring);
    ReadableAt(ring, k);
  }

  /**
   * Rolling back after the promotion leaves every row readable exactly when none has been written
   * under the new version, which becomes pending.
   */
  lemma RollbackStrands(w: World, to: int, progress: Progress, rows: map<int, int>)
    requires Safe(w) && BeginDualRead(w.ring, to).Ok? && !ActiveKeyVersion(w.ring).value.compromised
    requires progress.fromVersion == ActiveKeyVersion(w.ring).value.version && progress.toVersion == to
    requires forall r :: r in rows ==> CheckReadable(BeginDualRead(w.ring, to).value, rows[r]) == None
    ensures var next := BeginDualRead(w.ring, to).value;
            && RollbackRotation(next, progress).Ok?
            && ((forall r :: r in rows ==> CheckReadable(RollbackRotation(next, progress).value, rows[r]) == None)
                <==> forall r :: r in rows ==> rows[r] != to)
  {
    hide ActiveVersions;
    var next := BeginDualRead(w.ring, to).value;
    RollbackInverts(w.ring, to, progress);
    var k := SaneActive(w.ring);
    var j := FindIndex(w.ring.versions, to);
    forall r | r in rows ensures CheckReadable(w.ring, rows[r]) == None <==> rows[r] != to {
      ReadableAt(w.ring, j);
      var i := ReadableIndex(next, rows[r]);
      ReadableAt(w.ring, i);
    }
  }

  /** A rollback keeps the ring sane exactly when the active version is one of the two it names. */
  lemma RollbackKeeps(ring: KeyRing, progress: Progress)
    requires Sane(ring) && RollbackRotation(ring, progress).Ok?
    ensures var active := ActiveKeyVersion(ring).value.version;
            (Sane(RollbackRotation(ring, progress).value) <==> active == progress.fromVersion || active == progress.toVersion)
  {
    hide ActiveVersions;
    var next := RollbackRotation(ring, progress).value;
    var k := SaneActive(ring);
    var i := FindIndex(ring.versions, progress.fromVersion);
    RestateDistinct(ring.versions, progress.fromVersion, Active, progress.toVersion, Pending);
    SaneMeans(next);
    var active := ring.versions[k].version;
    if active == progress.fromVersion || active == progress.toVersion {
      assert IsActiveAt(next.versions, i);
    } else {
      forall a: nat ensures !IsActiveAt(next.versions, a) {
        assert next.versions[k].state == Active && next.versions[i].state == Active && i != k;
      }
    }
  }

  /** A rollback makes the old version readable, the new one unreadable, and touches no other. */
  lemma RollbackReads(ring: KeyRing, progress: Progress, version: int)
    requires DistinctNumbers(ring.versions) && RollbackRotation(ring, progress).Ok?
    ensures CheckReadable(RollbackRotation(ring, progress).value, version) == None
       <==> version == progress.fromVersion || (version != progress.toVersion && CheckReadable(ring, version) == None)
  {
    hide ActiveVersions;
    var next := RollbackRotation(ring, progress).value;
    RestateDistinct(ring.versions, progress.fromVersion, Active, progress.toVersion, Pending);
    var i := FindIndex(ring.versions, progress.fromVersion);
    ReadableAt(next, i);
    if CheckReadable(ring, version) == None {
      var j := ReadableIndex(ring, version);
      ReadableAt(next, j);
    }
    if CheckReadable(next, version) == None {
      var j := ReadableIndex(next, version);
      ReadableAt(ring, j);
    }
  }

  /**
   * In any safe store, a rollback leaves one active version and every row readable exactly when the
   * active version is one of the two it names, and no row is under the one that it makes pending.
   */
  lemma RollbackSafe(w: World, progress: Progress)
    requires Safe(w) && RollbackRotation(w.ring, progress).Ok?
    ensures var ring := RollbackRotation(w.ring, progress).value;
            var active := ActiveKeyVersion(w.ring).value.version;
            (Sane(ring) && AllReadable(w.(ring := ring))
             <==> (active == progress.fromVersion || active == progress.toVersion)
                  && (progress.fromVersion == progress.toVersion || forall r :: r in w.rows ==> w.rows[r] != progress.toVersion))
  {
    hide ActiveVersions, Counted, RollbackRotation, Find;
    RollbackKeeps(w.ring, progress);
    forall r | r in w.rows
      ensures CheckReadable(RollbackRotation(w.ring, progress).value, w.rows[r]) == None
         <==> w.rows[r] == progress.fromVersion || w.rows[r] != progress.toVersion
    {
      RollbackReads(w.ring, progress, w.rows[r]);
    }
  }

  const THREE: KeyRing := KeyRing(SensitiveData, [KeyVersion(1, DecryptOnly, "", "", false), KeyVersion(2, DecryptOnly, "", "", false),
                                                  KeyVersion(3, Active, "", "", false)])

  /** Rolling back an older promotion leaves two active versions and strands the rows under its target. */
  lemma OldRollbackBreaks()
    ensures var progress, w := Progress(1, 2, 1, 1, 1, 0), World(THREE, map[7 := 2], map[], map[]);
            && Safe(w) && RollbackRotation(w.ring, progress).Ok?
            && CheckSane(RollbackRotation(w.ring, progress).value) == Some(MULTIPLE_ACTIVE)
            && CheckReadable(RollbackRotation(w.ring, progress).value, 2) == Some(STATE_INVALID)
  {
    assert IsActiveAt(THREE.versions, 2);
    SaneMeans(THREE);
    FindAt(THREE.versions, 0);
    FindAt(THREE.versions, 1);
    var next := RollbackRotation(THREE, Progress(1, 2, 1, 1, 1, 0)).value;
    FindAt(next.versions, 1);
    assert next.versions[0].state == Active && next.versions[2].state == Active && next.versions[1].state == Pending;
    assert ActiveVersions(next.versions[3..]) == [];
    assert ActiveVersions(next.versions[2..]) == [next.versions[2]];
    assert ActiveVersions(next.versions[1..]) == [next.versions[2]];
  }

  /* ---- Blind indexes ---- */

  datatype IndexEntry = IndexEntry(keyVersion: int, indexValue: string)

  predicate NumberAtMost(a: int, b: int) {
    a <= b
  }

  function Unique(numbers: seq<int>): seq<int> {
    if numbers == [] then []
    else
      var front := Unique(numbers[..|numbers| - 1]);
      if numbers[|numbers| - 1] in front then front else front + [numbers[|numbers| - 1]]
  }

  function Versions(entries: seq<IndexEntry>): (r: seq<int>)
    ensures |r| == |entries| && forall i :: 0 <= i < |r| ==> r[i] == entries[i].keyVersion
  {
    seq(|entries|, i requires 0 <= i < |entries| => entries[i].keyVersion)
  }

  function LookupVersions(entries: seq<IndexEntry>): seq<int> {
    Sort(Unique(Versions(entries)), NumberAtMost)
  }

  function Filtered(present: seq<int>, compromised: seq<int>, active: int): seq<int> {
    if present == [] then []
    else (if present[0] in compromised && present[0] != active then [present[0]] else [])
         + Filtered(present[1..], compromised, active)
  }

  function MustOverwrite(entries: seq<IndexEntry>, compromised: seq<int>, active: int): seq<int> {
    Filtered(LookupVersions(entries), compromised, active)
  }

  function CheckNoCompromisedIndex(entries: seq<IndexEntry>, compromised: seq<int>): Option<string> {
    if exists e :: e in entries && e.keyVersion in compromised then Some(INDEX_RETAINED) else None
  }

  lemma {:induction false} UniqueMembers(numbers: seq<int>)
    ensures forall n :: n in Unique(numbers) <==> n in numbers
    ensures forall i, j :: 0 <= i < j < |Unique(numbers)| ==> Unique(numbers)[i] != Unique(numbers)[j]
  {
    if numbers != [] {
      UniqueMembers(numbers[..|numbers| - 1]);
      assert numbers == numbers[..|numbers| - 1] + [numbers[|numbers| - 1]];
    }
  }

  lemma {:induction false} FilteredMembers(present: seq<int>, compromised: seq<int>, active: int)
    ensures forall n :: n in Filtered(present, compromised, active) <==> n in present && n in compromised && n != active
  {
    if present != [] {
      FilteredMembers(present[1..], compromised, active);
      assert present == [present[0]] + present[1..];
    }
  }

  /** Lookups span exactly the versions present, in increasing order; the plan names the leaked ones. */
  lemma PlanMembers(entries: seq<IndexEntry>, compromised: seq<int>, active: int)
    ensures forall n :: n in LookupVersions(entries) <==> exists e :: e in entries && e.keyVersion == n
    ensures forall i, j :: 0 <= i < j < |LookupVersions(entries)| ==> LookupVersions(entries)[i] <= LookupVersions(entries)[j]
    ensures forall n :: n in MustOverwrite(entries, compromised, active) <==>
              (exists e :: e in entries && e.keyVersion == n) && n in compromised && n != active
  {
    hide Sort, Unique, Filtered;
    UniqueMembers(Versions(entries));
    SortMembers(Unique(Versions(entries)), NumberAtMost);
    SortSorts(Unique(Versions(entries)), NumberAtMost);
    forall n ensures n in Versions(entries) <==> exists e :: e in entries && e.keyVersion == n {
      if e :| e in entries && e.keyVersion == n {
        var i :| 0 <= i < |entries| && entries[i] == e;
        assert Versions(entries)[i] == n;
      }
      if n in Versions(entries) {
        var i :| 0 <= i < |entries| && Versions(entries)[i] == n;
        assert entries[i] in entries;
      }
    }
    FilteredMembers(LookupVersions(entries), compromised, active);
  }

  /** Every entry the plan names, rewritten under the active version. */
  function Overwritten(entries: seq<IndexEntry>, plan: seq<int>, active: int, renew: int -> string): (r: seq<IndexEntry>)
    ensures |r| == |entries|
    ensures forall i :: 0 <= i < |r| ==>
              r[i] == if entries[i].keyVersion in plan then IndexEntry(active, renew(i)) else entries[i]
  {
    seq(|entries|, i requires 0 <= i < |entries| =>
      if entries[i].keyVersion in plan then IndexEntry(active, renew(i)) else entries[i])
  }

  /** Carrying out the plan passes the final check unless the active version itself has leaked. */
  lemma OverwriteRepairs(entries: seq<IndexEntry>, compromised: seq<int>, active: int, renew: int -> string)
    ensures var repaired := Overwritten(entries, MustOverwrite(entries, compromised, active), active, renew);
            (CheckNoCompromisedIndex(repaired, compromised) == None
             <==> active !in compromised || CheckNoCompromisedIndex(entries, compromised) == None)
  {
    hide LookupVersions, MustOverwrite;
    var plan := MustOverwrite(entries, compromised, active);
    var repaired := Overwritten(entries, plan, active, renew);
    PlanMembers(entries, compromised, active);
    forall i | 0 <= i < |entries|
      ensures repaired[i].keyVersion in compromised <==> entries[i].keyVersion in compromised && active in compromised
    {
      assert entries[i] in entries;
    }
    if e :| e in entries && e.keyVersion in compromised {
      var i :| 0 <= i < |entries| && entries[i] == e;
      assert repaired[i] in repaired;
    }
    if e :| e in repaired && e.keyVersion in compromised {
      var i :| 0 <= i < |repaired| && repaired[i] == e;
      assert entries[i] in entries;
    }
  }

  /* ---- The checks and changes, one by one ---- */

  /** How many versions are in a state. */
  function CountOf(versions: seq<KeyVersion>, state: KeyState): nat {
    if versions == [] then 0 else (if versions[0].state == state then 1 else 0) + CountOf(versions[1..], state)
  }

  lemma {:induction false} ActiveCounted(versions: seq<KeyVersion>)
    ensures |ActiveVersions(versions)| == CountOf(versions, Active)
    ensures forall v :: v in ActiveVersions(versions) ==> v in versions && v.state == Active
  {
    if versions != [] {
      ActiveCounted(versions[1..]);
    }
  }

  /** The ring's checks, in order. */
  lemma RingChecks(ring: KeyRing)
    ensures CheckSane(ring) ==
              if |ring.versions| == 0 || CountOf(ring.versions, Active) == 0 then Some("KEY_NO_ACTIVE_VERSION")
              else if CountOf(ring.versions, Active) > 1 then Some("KEY_MULTIPLE_ACTIVE_VERSIONS")
              else if exists i, j :: 0 <= i < j < |ring.versions| && ring.versions[i].version == ring.versions[j].version then Some("KEY_STATE_INVALID")
              else None
    ensures CheckSane(ring).None? ==>
              ActiveKeyVersion(ring).Ok? && ActiveKeyVersion(ring).value in ring.versions && ActiveKeyVersion(ring).value.state == Active
    ensures CheckSane(ring).Some? ==> ActiveKeyVersion(ring) == Err(CheckSane(ring).value)
  {
    hide ActiveVersions;
    ActiveCounted(ring.versions);
  }

  lemma {:induction false} FindsFirst(versions: seq<KeyVersion>, version: int)
    ensures match Find(versions, version)
            case None => forall i :: 0 <= i < |versions| ==> versions[i].version != version
            case Some(v) => exists i :: 0 <= i < |versions| && versions[i] == v && v.version == version
                                        && forall j :: 0 <= j < i ==> versions[j].version != version
  {
    if versions != [] && versions[0].version != version {
      FindsFirst(versions[1..], version);
      match Find(versions[1..], version)
      case None =>
        forall i | 0 <= i < |versions| ensures versions[i].version != version {
          assert i > 0 ==> versions[i] == versions[1..][i - 1];
        }
      case Some(v) =>
        var i :| 0 <= i < |versions[1..]| && versions[1..][i] == v && v.version == version
                 && forall j :: 0 <= j < i ==> versions[1..][j].version != version;
        assert versions[i + 1] == v;
        forall j | 0 <= j < i + 1 ensures versions[j].version != version {
          assert j > 0 ==> versions[j] == versions[1..][j - 1];
        }
    }
  }

  /** Which versions can be written, read and retired. */
  lemma UseChecks(ring: KeyRing, version: int, progress: Progress)
    ensures CheckSane(ring).Some? ==> CheckWritable(ring, version) == CheckSane(ring)
    ensures CheckSane(ring).None? ==>
              CheckWritable(ring, version) == if version == ActiveKeyVersion(ring).value.version then None else Some("KEY_WRITE_TO_NON_ACTIVE_VERSION")
    ensures CheckReadable(ring, version) ==
              match Find(ring.versions, version)
              case None => Some("KEY_VERSION_UNKNOWN")
              case Some(v) =>
                if v.state == Retired then Some("KEY_VERSION_RETIRED") else if v.state == Pending then Some("KEY_STATE_INVALID") else None
    ensures CheckComplete(progress) ==
              if progress.failedRows > 0 || progress.reencryptedRows < progress.totalRows then Some("KEY_ROTATION_INCOMPLETE")
              else if progress.verifiedRows < progress.totalRows then Some("KEY_ROTATION_NOT_VERIFIED")
              else None
    ensures CheckSane(ring).None? ==> RotationRequired(ring) == Ok(ActiveKeyVersion(ring).value.compromised)
  {
    hide ActiveVersions, Find;
  }

  /** The ring with new states: every other field of every version stays. */
  ghost predicate StatesBecome(ring: KeyRing, next: KeyRing, state: KeyVersion -> KeyState) {
    && next.purpose == ring.purpose && |next.versions| == |ring.versions|
    && forall i :: 0 <= i < |ring.versions| ==>
         var v := ring.versions[i];
         next.versions[i] == KeyVersion(v.version, state(v), v.secretReference, v.createdAt, v.compromised)
  }

  /** Promotion: its errors in order, and the two states that it changes. */
  lemma BeginEffect(ring: KeyRing, to: int)
    ensures var r := BeginDualRead(ring, to);
            if CheckSane(ring).Some? then r == Err(CheckSane(ring).value)
            else match Find(ring.versions, to)
              case None => r == Err("KEY_VERSION_UNKNOWN")
              case Some(next) =>
                if next.state != Pending || next.compromised then r == Err("KEY_STATE_INVALID")
                else
                  var current := ActiveKeyVersion(ring).value.version;
                  r.Ok? && StatesBecome(ring, r.value, (v: KeyVersion) =>
                    if v.version == to then Active else if v.version == current then DecryptOnly else v.state)
  {
    hide ActiveVersions, Find;
  }

  /** Retirement. */
  lemma RetireEffect(ring: KeyRing, progress: Progress)
    ensures var r := RetireOldVersion(ring, progress);
            if CheckComplete(progress).Some? then r == Err(CheckComplete(progress).value)
            else if CheckReadable(ring, progress.fromVersion).Some? then r == Err(CheckReadable(ring, progress.fromVersion).value)
            else r.Ok? && StatesBecome(ring, r.value, (v: KeyVersion) => if v.version == progress.fromVersion then Retired else v.state)
  {
    hide Find;
  }

  /** Rollback. */
  lemma RollbackEffect(ring: KeyRing, progress: Progress)
    ensures var r := RollbackRotation(ring, progress);
            match Find(ring.versions, progress.fromVersion)
            case None => r == Err("KEY_VERSION_UNKNOWN")
            case Some(old_) =>
              if old_.state == Retired || old_.compromised then r == Err("KEY_STATE_INVALID")
              else
                r.Ok? && StatesBecome(ring, r.value, (v: KeyVersion) =>
                  if v.version == progress.fromVersion then Active else if v.version == progress.toVersion then Pending else v.state)
  {
    hide Find;
  }

  /** The final check of a blind-index rotation. */
  lemma IndexCheck(entries: seq<IndexEntry>, compromised: seq<int>)
    ensures CheckNoCompromisedIndex(entries, compromised) ==
              if exists i :: 0 <= i < |entries| && entries[i].keyVersion in compromised then Some("KEY_COMPROMISED_INDEX_RETAINED") else None
  {
    if e :| e in entries && e.keyVersion in compromised {
      var i :| 0 <= i < |entries| && entries[i] == e;
    }
    if i :| 0 <= i < |entries| && entries[i].keyVersion in compromised {
      assert entries[i] in entries;
    }
  }
}
