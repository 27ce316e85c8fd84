/** The record every registry backend returns for one service instance. */
module Registry {
  import opened Strings

  /**
    A service instance: its derived ID, the service's name, the instance's
    address, the raw value stored for it, its state and its group.
   */
  datatype Service = Service(id: Bytes, name: Bytes, address: Bytes, metadata: Bytes, state: Bytes, group: Bytes)
}
