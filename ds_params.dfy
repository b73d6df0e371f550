/** `generate_ds_params`: the host, ports, server id and replica id of a
    test instance, from its replication role and instance number.  The
    values of `LOCALHOST` and `CONSUMER_REPLICAID` come from
    `lib389._constants`, which is not part of this model; they are
    parameters here. */
module DsParams {

  import opened Base
  import opened Text

  datatype ReplicaRole = Standalone | Master | Hub | Consumer

  /** The `role` argument: one of the four roles, or any other value. */
  datatype RoleArg = Role(role: ReplicaRole) | Other

  /** The two `ValueError`s. */
  datatype ParamError = InstanceNumberOutOfRange | UnsupportedRole

  /** The returned dict, one field per key. */
  datatype InstanceData = InstanceData(host: string, port: int, securePort: int, serverId: string, replicaId: int)

  const BasePort := 38900
  const SecureOffset := 24700

  /** `role.name.lower()`. */
  function RoleName(role: ReplicaRole): (name: string)
    ensures name != [] && forall i :: 0 <= i < |name| ==> 'a' <= name[i] <= 'z'
  {
    match role
    case Standalone => "standalone"
    case Master => "master"
    case Hub => "hub"
    case Consumer => "consumer"
  }

  /** The hundreds block each role's ports are taken from. */
  function RoleBlock(role: ReplicaRole): (b: nat)
    ensures b < 4
    ensures b == 0 <==> role == Standalone
  {
    match role
    case Standalone => 0
    case Master => 1
    case Hub => 2
    case Consumer => 3
  }

  /** The port of instance `n` in `role`: the role picks the hundreds, the
      instance number the last two digits. */
  function PortFor(role: ReplicaRole, n: int): int
  {
    BasePort + 100 * RoleBlock(role) + n
  }

  function ServerIdFor(role: ReplicaRole, n: nat): string
  {
    RoleName(role) + Decimal(n)
  }

  /** The instance number is in the range the source accepts. */
  predicate ValidInstance(n: int)
  {
    1 <= n <= 99
  }

  /** `generate_ds_params`: the role defaults to a standalone server;
      `localhost` and `consumerReplicaId` stand for the library constants
      `LOCALHOST` and `CONSUMER_REPLICAID`. */
  method GenerateDsParams(instNum: int, roleArg: RoleArg := Role(Standalone), localhost: string, consumerReplicaId: int)
    returns (r: Result<InstanceData, ParamError>)
    ensures !ValidInstance(instNum) ==> r == Failure(InstanceNumberOutOfRange)
    ensures ValidInstance(instNum) && roleArg.Other? ==> r == Failure(UnsupportedRole)
    ensures ValidInstance(instNum) && roleArg.Role? ==>
      && r.Success?
      && r.value.host == localhost
      && r.value.port == PortFor(roleArg.role, instNum)
      && r.value.securePort == r.value.port + SecureOffset
      && r.value.serverId == ServerIdFor(roleArg.role, instNum)
      && (roleArg.role == Master ==> r.value.replicaId == instNum)
      && (roleArg.role != Master ==> r.value.replicaId == consumerReplicaId)
  {
    if !(1 <= instNum < 100) {
      return Failure(InstanceNumberOutOfRange);
    }
    if roleArg.Other? {
      return Failure(UnsupportedRole);
    }
    var role := roleArg.role;
    var relevantNum := 38900;
    if role == Master {
      relevantNum := relevantNum + 100;
    } else if role == Hub {
      relevantNum := relevantNum + 200;
    } else if role == Consumer {
      relevantNum := relevantNum + 300;
    }
    var replicaId;
    if role == Master {
      replicaId := instNum;
    } else {
      replicaId := consumerReplicaId;
    }
    var serverId := RoleName(role) + Decimal(instNum);
    r := Success(InstanceData(localhost, relevantNum + instNum, relevantNum + instNum + 24700, serverId, replicaId));
  }

  // ----- what the generated values guarantee -----

  /** A port's hundreds say the role and its last two digits the instance. */
  lemma PortDecodes(role: ReplicaRole, n: int)
    requires ValidInstance(n)
    ensures PortFor(role, n) / 100 == 389 + RoleBlock(role)
    ensures PortFor(role, n) % 100 == n
  {
  }

  /** Distinct (role, instance) pairs never share a port or a secure port,
      and no instance's port is another's secure port. */
  lemma PortsDistinct(r1: ReplicaRole, n1: int, r2: ReplicaRole, n2: int)
    requires ValidInstance(n1) && ValidInstance(n2)
    requires (r1, n1) != (r2, n2)
    ensures PortFor(r1, n1) != PortFor(r2, n2)
    ensures PortFor(r1, n1) + SecureOffset != PortFor(r2, n2) + SecureOffset
    ensures PortFor(r1, n1) != PortFor(r2, n2) + SecureOffset
  {
    PortDecodes(r1, n1);
    PortDecodes(r2, n2);
    if RoleBlock(r1) == RoleBlock(r2) {
      BlockDetermines(r1, r2);
    }
  }

  lemma BlockDetermines(r1: ReplicaRole, r2: ReplicaRole)
    requires RoleBlock(r1) == RoleBlock(r2)
    ensures r1 == r2
  {
  }

  /** Every generated port and secure port is a valid TCP port. */
  lemma PortsInRange(role: ReplicaRole, n: int)
    requires ValidInstance(n)
    ensures 38901 <= PortFor(role, n) <= 39299
    ensures 63601 <= PortFor(role, n) + SecureOffset <= 63999 < 65536
  {
  }

  /** Distinct (role, instance) pairs get distinct server ids: the role's
      name is all letters and the instance number all digits, so the id
      splits back into both. */
  lemma ServerIdsDistinct(r1: ReplicaRole, n1: nat, r2: ReplicaRole, n2: nat)
    requires (r1, n1) != (r2, n2)
    ensures ServerIdFor(r1, n1) != ServerIdFor(r2, n2)
  {
    var a, b := RoleName(r1), Decimal(n1);
    var c, d := RoleName(r2), Decimal(n2);
    if a + b == c + d {
      LettersThenDigits(a, b, c, d);
      NameDetermines(r1, r2);
      DecimalInjective(n1, n2);
    }
  }

  lemma NameDetermines(r1: ReplicaRole, r2: ReplicaRole)
    requires RoleName(r1) == RoleName(r2)
    ensures r1 == r2
  {
  }

  /** Letters followed by a non-empty run of digits split in one way only. */
  lemma LettersThenDigits(a: string, b: string, c: string, d: string)
    requires forall i :: 0 <= i < |a| ==> 'a' <= a[i] <= 'z'
    requires forall i :: 0 <= i < |c| ==> 'a' <= c[i] <= 'z'
    requires b != [] && AllDigits(b) && d != [] && AllDigits(d)
    requires a + b == c + d
    ensures a == c && b == d
  {
    LeadingLetters(a, b);
    LeadingLetters(c, d);
    assert a == (a + b)[..|a|] && c == (c + d)[..|c|];
    assert b == (a + b)[|a|..] && d == (c + d)[|c|..];
  }

  /** Number of lower-case letters at the start of `s`. */
  function LetterRun(s: string): (n: nat)
    ensures n <= |s|
  {
    if s != [] && 'a' <= s[0] <= 'z' then 1 + LetterRun(s[1..]) else 0
  }

  lemma {:induction false} LeadingLetters(a: string, b: string)
    requires forall i :: 0 <= i < |a| ==> 'a' <= a[i] <= 'z'
    requires b != [] && IsDigit(b[0])
    ensures LetterRun(a + b) == |a|
  {
    if a != [] {
      assert (a + b)[1..] == a[1..] + b;
      LeadingLetters(a[1..], b);
    } else {
      assert a + b == b;
    }
  }
}
