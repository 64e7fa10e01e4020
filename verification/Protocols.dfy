/** The protocols of a session and their ports (`types.rs` of the core crate). */
module Protocols {

  datatype Protocol = Sftp | Scp | Ftp | Ftps | WebDav | Smb | Telnet

  type Port = p: nat | p < 65536

  function DefaultPort(p: Protocol): (n: Port) {
    match p
    case Sftp => 22
    case Scp => 22
    case Ftp => 21
    case Ftps => 990
    case WebDav => 443
    case Smb => 445
    case Telnet => 23
  }
}
