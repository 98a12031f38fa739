/** The host's certificate directory as a map from absolute path to file contents,
    with the fixed paths of the agent, Cert.exist and the two whole-file writes
    the agent performs (the CA chain in Register.register, the leaf pair in Cert.store). */
module CertFiles {

  type Path = string

  /** Which files exist and what they hold. */
  type FileSystem = map<Path, string>

  // Joining the script's directory with an absolute name yields that name,
  // so each file is identified by its absolute path.
  const CERT_FILE: Path := "/srv/hops/certs-dir/hops-site-certs/pub.pem"
  const CA_FILE: Path := "/srv/hops/certs-dir/hops-site-certs/ca_pub.pem"
  const INTERMEDIATE_CA_FILE: Path := "/srv/hops/certs-dir/hops-site-certs/intermediate_ca_pub.pem"
  const KEY_FILE: Path := "/srv/hops/certs-dir/hops-site-certs/priv.key"

  /** Cert.exist: the host counts as provisioned when the leaf certificate and
      the private key are both present; contents are not inspected. */
  function Exist(fs: FileSystem): (provisioned: bool)
    ensures provisioned ==> CERT_FILE in fs && KEY_FILE in fs
    ensures CERT_FILE in fs && KEY_FILE in fs ==> provisioned
    ensures (CERT_FILE in fs) != (KEY_FILE in fs) ==> !provisioned
    ensures CERT_FILE !in fs && KEY_FILE !in fs ==> !provisioned
  {
    CERT_FILE in fs && KEY_FILE in fs
  }

  /** Files after Cert.store overwrote the leaf certificate and then the key. */
  function Stored(fs: FileSystem, cert: string, key: string): FileSystem {
    fs[CERT_FILE := cert][KEY_FILE := key]
  }

  /** Files after Register.register wrote the root CA and then the intermediate CA file. */
  function ChainWritten(fs: FileSystem, root: string, intermediate: string): FileSystem {
    fs[CA_FILE := root][INTERMEDIATE_CA_FILE := intermediate]
  }

  /** Cert.store leaves the host provisioned, with the given certificate and key in the
      pair's files, and every other path as it was. */
  lemma StoreProvisions(fs: FileSystem, cert: string, key: string)
    ensures var r := Stored(fs, cert, key);
            && r.Keys == fs.Keys + {CERT_FILE, KEY_FILE}
            && r[CERT_FILE] == cert && r[KEY_FILE] == key
            && Exist(r)
            && r - {CERT_FILE, KEY_FILE} == fs - {CERT_FILE, KEY_FILE}
  {
  }

  /** The chain write sets the two CA files, touches no other path, and does not
      change whether the host counts as provisioned. */
  lemma ChainWriteScope(fs: FileSystem, root: string, intermediate: string)
    ensures var r := ChainWritten(fs, root, intermediate);
            && r.Keys == fs.Keys + {CA_FILE, INTERMEDIATE_CA_FILE}
            && r[CA_FILE] == root && r[INTERMEDIATE_CA_FILE] == intermediate
            && r - {CA_FILE, INTERMEDIATE_CA_FILE} == fs - {CA_FILE, INTERMEDIATE_CA_FILE}
            && Exist(r) == Exist(fs)
  {
  }

  /** Storing the leaf pair keeps the chain files just written. */
  lemma StoreKeepsChain(fs: FileSystem, root: string, intermediate: string, cert: string, key: string)
    ensures var r := Stored(ChainWritten(fs, root, intermediate), cert, key);
            r[CA_FILE] == root && r[INTERMEDIATE_CA_FILE] == intermediate &&
            r[CERT_FILE] == cert && r[KEY_FILE] == key
  {
  }
}
