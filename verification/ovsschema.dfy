/**
 * The rows of the Open_vSwitch database the collectors read, with only the
 * columns they look at. References to other rows are their UUID strings.
 * The generated table models (package ovsdb/ovs) are not part of this
 * model; these records stand for them.
 */
module OvsSchema {
  import opened Wrappers

  /** A `Bridge` row: its ports are references to `Port` rows. */
  datatype Bridge = Bridge(uuid: string, name: string, ports: seq<string>, datapathType: string)

  /** A `Port` row: its interfaces are references to `Interface` rows. */
  datatype Port = Port(uuid: string, name: string, interfaces: seq<string>)

  /** An `Interface` row; the optional columns are None when the database leaves them empty. */
  datatype Interface = Interface(
    uuid: string,
    name: string,
    ifaceType: string,
    adminState: Option<string>,
    linkState: Option<string>,
    mtu: Option<int>,
    linkSpeed: Option<int>,
    linkResets: Option<int>,
    statistics: map<string, int>)

  /** The single `Open_vSwitch` row. */
  datatype OpenvSwitch = OpenvSwitch(
    externalIds: map<string, string>,
    ovsVersion: Option<string>,
    dpdkVersion: Option<string>,
    dbVersion: Option<string>,
    dpdkInitialized: bool)
}
