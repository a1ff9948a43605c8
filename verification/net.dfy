/**
 * The standard library's address values used by the user-space program:
 * an IP address of either family and a socket address (address and port).
 * Their textual forms are not part of this model.
 */
module Net {
  import opened Bytes
  import opened Common

  datatype IpAddr = V4(octets4: Octets4) | V6(octets16: Octets16)

  /**
   * A socket address.  The IPv6 flow information and scope id are not
   * modelled, so two remotes that differ only in them are one value here.
   */
  datatype SocketAddr = SocketAddr(ip: IpAddr, port: u16)
}
