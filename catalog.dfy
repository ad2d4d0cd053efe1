/**
  The device catalog (`CameraPeripheral`): the one controller service and the
  six characteristic roles of the camera peripheral, each with a fixed UUID.
  UUIDs are kept as their canonical lower-case strings and compared as such.
 */
module Catalog {

  type Uuid = string

  /** `CameraPeripheral.Services`: the single GATT service of the camera. */
  datatype ServiceRole = Controller

  function ServiceUuid(s: ServiceRole): Uuid
  {
    match s
    case Controller => "96ee66cc-d2e4-11ed-afa1-0242ac120002"
  }

  /** `CameraPeripheral.Characteristics`. */
  datatype CharacteristicRole = Camera | Command | Delay | Iso | UpdateSettings | ShotCount

  function RoleUuid(r: CharacteristicRole): Uuid
  {
    match r
    case Camera => "96ee6db6-d2e4-11ed-afa1-0242ac120002"
    case Command => "96ee69d8-d2e4-11ed-afa1-0242ac120002"
    case Delay => "b574bac4-d32f-11ed-afa1-0242ac120002"
    case Iso => "b574bb34-d32f-11ed-afa1-0242ac120002"
    case UpdateSettings => "b574bc34-d32f-11ed-afa1-0242ac120002"
    case ShotCount => "b574be34-d32f-11ed-afa1-0242ac120002"
  }

  /** `Characteristics.allCases`, in declaration order. */
  const AllRoles: seq<CharacteristicRole> := [Camera, Command, Delay, Iso, UpdateSettings, ShotCount]

  /** `allCases.map { $0.uuid }`: the filter passed to characteristic discovery. */
  function DiscoveryFilter(): (f: seq<Uuid>)
    ensures |f| == 6
    ensures forall r :: RoleUuid(r) in f
  {
    var f := seq(|AllRoles|, i requires 0 <= i < |AllRoles| => RoleUuid(AllRoles[i]));
    assert f[0] == RoleUuid(Camera) && f[1] == RoleUuid(Command) && f[2] == RoleUuid(Delay);
    assert f[3] == RoleUuid(Iso) && f[4] == RoleUuid(UpdateSettings) && f[5] == RoleUuid(ShotCount);
    f
  }

  /** The list of all cases is complete and repeats no case. */
  lemma AllRolesEnumerates(r: CharacteristicRole)
    ensures r in AllRoles
    ensures |AllRoles| == 6
    ensures forall i, j :: 0 <= i < j < |AllRoles| ==> AllRoles[i] != AllRoles[j]
  {
  }

  /** Different roles have different UUIDs, and no role shares the service's UUID. */
  lemma RoleUuidInjective(a: CharacteristicRole, b: CharacteristicRole)
    ensures RoleUuid(a) == RoleUuid(b) ==> a == b
    ensures RoleUuid(a) != ServiceUuid(Controller)
  {
  }

  /**
    The discovery filter is exactly the six role UUIDs: it has six pairwise
    distinct entries, and a UUID is in it exactly when it is some role's UUID.
   */
  lemma DiscoveryFilterIsAllRoles(u: Uuid)
    ensures |DiscoveryFilter()| == 6
    ensures forall i, j :: 0 <= i < j < |DiscoveryFilter()| ==> DiscoveryFilter()[i] != DiscoveryFilter()[j]
    ensures u in DiscoveryFilter() <==> exists r :: RoleUuid(r) == u
  {
    var f := DiscoveryFilter();
    forall i, j | 0 <= i < j < |f| ensures f[i] != f[j] {
      AllRolesEnumerates(AllRoles[i]);
      RoleUuidInjective(AllRoles[i], AllRoles[j]);
    }
    if exists r :: RoleUuid(r) == u {
      var r :| RoleUuid(r) == u;
      AllRolesEnumerates(r);
      var i :| 0 <= i < |AllRoles| && AllRoles[i] == r;
      assert f[i] == u;
    }
  }
}
