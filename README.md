# csr-ca agent: a Dafny model of host certificate provisioning

`dela/vm_image_scripts/csr-ca.py` is a one-shot agent that gives a host its
identity. If the host's leaf certificate and private key are not both on disk, it
generates a key and a certificate signing request (CSR). It then submits the CSR to
the HopsWorks CA front-end, making up to the configured number of attempts. On success it
writes the CA chain and the leaf certificate/key pair to fixed paths.

This project models the agent's behaviour once HTTP, OpenSSL, configuration and
logging are abstracted away:

- `logging_level.dfy` (module `Logging`): `Util.logging_level`, a total lookup of a
  level name with `NOTSET` as the default.
- `cert_files.dfy` (module `CertFiles`): the certificate directory as a map from
  absolute path to contents; the four fixed paths; `Cert.exist`; and the two
  whole-file writes. The chain write (root CA, then intermediate CA) happens in
  `Register.register`. The leaf-pair write (certificate, then key) happens in
  `Cert.store`.
- `sign_response.dfy` (module `SignResponse`): the CA's answer to one attempt, as an
  already-received value. It is either no reply at all (any exception from the two
  POSTs) or a status code plus an optional JSON object of string fields. `Validate`
  holds the checks of `Register.register`: status exactly 200, a JSON object, and the
  fields `signedCert`, `intermediateCaCert` and `rootCaCert`.
- `retry.dfy` (module `Retry`): the retry loop of `Register.__init__` as a
  specification. The calls it makes are recorded as a trace of `register`, `store`
  and `sleep` events. The loop's break test is `retry_count == retries`. `Run` gives
  the state the loop ends in. Lemmas cover attempt, sleep and store counts, the order
  of the calls, and when the loop can end at all.
- `agent.dfy` (module `Agent`): class `Host` holds the mutable state. Its fields are
  the directory, the module-global `retry_count` and a ghost trace of calls. Its
  methods are `Register`, `Store`, `Sleep`, the loop `RegisterLoop` and the
  `__main__` gate `Bootstrap`. Each method is proved against the functions above.

The CA is an oracle `ca: nat -> Response`. `ca(c)` is the answer to the attempt made
while the retry counter reads `c`. The CSR and key are opaque strings produced
outside the model.

Three points of the code's behaviour the model keeps as written:

- `retries` is read with `getfloat`, so it is a real number here (the non-finite
  values `getfloat` also accepts are listed under "## Left out").
- The loop stops after a failure only when the incremented integer counter *equals*
  `retries`. With every attempt failing, the loop therefore ends only when `retries`
  is a positive integer above the counter's start (`Retry.EndsWhenAllFail`). With 0,
  a negative value or a fractional value it never ends.
- A success ends the loop whatever `retries` is, as long as no earlier failure made
  the counter equal `retries` (`Retry.FirstSuccessStops`).

## Model

| member | source | states |
|---|---|---|
| `Logging.LoggingLevel` | dela/vm_image_scripts/csr-ca.py:47-55 | INFO, DEBUG, ERROR and CRITICAL give their own levels and WARN and WARNING both give WARNING; the result is a set level exactly for those six names and `NOTSET` for every other string |
| `Logging.OnlyWarnIsAnAlias` | dela/vm_image_scripts/csr-ca.py:47-55 | two different known names share a level only when they are WARN and WARNING |
| `Logging.LookupOfLevelName` | dela/vm_image_scripts/csr-ca.py:47-55 | each set level comes back from the lookup of its own canonical name |
| `Logging.LevelNameOfLookup` | dela/vm_image_scripts/csr-ca.py:47-55 | each recognised name other than the alias WARN is the canonical name of the level the lookup gives it |
| `CertFiles.Exist` | dela/vm_image_scripts/csr-ca.py:114-116 | the host is provisioned iff both the certificate and the key file exist; if only one of them exists, or neither, it is not |
| `CertFiles.StoreProvisions` | dela/vm_image_scripts/csr-ca.py:147-156 | after the store, the certificate file holds `cert` and the key file holds `key`; `Exist` holds; the paths are the old ones plus those two; every other path is unchanged |
| `CertFiles.ChainWriteScope` | dela/vm_image_scripts/csr-ca.py:91-98 | after the chain write, the CA file holds the root and the intermediate file holds the intermediate certificate; no other path changes; whether the host counts as provisioned is unchanged |
| `CertFiles.StoreKeepsChain` | dela/vm_image_scripts/csr-ca.py:152-155 | storing the leaf pair after the chain write leaves all four files holding the values written |
| `SignResponse.ValidateAcceptsExactlyCompleteOk` | dela/vm_image_scripts/csr-ca.py:83-89 | an attempt yields a certificate iff the reply has status 200 and a JSON object holding all three fields; the certificate is `signedCert` and the chain carries the other two fields |
| `SignResponse.ValidateOkReply` | dela/vm_image_scripts/csr-ca.py:83-89 | validating the reply a CA sends for a chain gives back exactly that chain |
| `SignResponse.NonOkStatusFails` | dela/vm_image_scripts/csr-ca.py:83-84 | any status other than 200 fails, whatever the body holds |
| `SignResponse.MissingFieldFails` | dela/vm_image_scripts/csr-ca.py:86-89 | a 200 reply missing any one of the three fields fails, just as having no reply does |
| `Retry.AttemptsCount` | dela/vm_image_scripts/csr-ca.py:62-70 | a loop whose iteration k+1 ends it makes k+1 registrations and k sleeps; it stores once if the last attempt succeeded and otherwise never |
| `Retry.AttemptsShape` | dela/vm_image_scripts/csr-ca.py:60-70 | every attempt sends the same CSR and key; each sleep lies between a failed attempt and the next attempt; the store is the last call and writes the certificate the attempt just before it returned, with that attempt's key |
| `Retry.FirstEndUnique` | dela/vm_image_scripts/csr-ca.py:62-69 | the iteration that ends the loop is determined by the CA's answers, `retries` and the counter's start |
| `Retry.RunCounts` | dela/vm_image_scripts/csr-ca.py:62-70 | the loop's state keeps the old trace as a prefix and adds last-start+1 registrations and last-start sleeps; it adds a store exactly when the last attempt succeeded |
| `Retry.RunTraceShape` | dela/vm_image_scripts/csr-ca.py:60-70 | the calls the loop adds satisfy the same-request, sleep-placement and store-last properties; the last call is the store on success and the failed registration otherwise |
| `Retry.EndsWhenAllFail` | dela/vm_image_scripts/csr-ca.py:67-69 | when every attempt fails, the loop has an ending iteration iff `retries` is a positive integer greater than the counter's start |
| `Retry.AllFailuresExhaustBudget` | dela/vm_image_scripts/csr-ca.py:62-69 | with every attempt failing and `retries` = n ≥ 1, from counter 0 the loop makes exactly n attempts with n-1 sleeps; it never stores, changes no file and leaves the counter at n |
| `Retry.FirstSuccessStops` | dela/vm_image_scripts/csr-ca.py:62-66 | if attempt k+1 is the first success and no earlier failure made the counter equal `retries`, the loop ends there after k+1 registrations and k sleeps, with one store; the root and intermediate CA files hold that attempt's chain and the certificate and key files hold its certificate and the key |
| `Retry.FirstSuccessWithinBudget` | dela/vm_image_scripts/csr-ca.py:62-66 | if attempt k+1 ≤ `retries` is the first success, from counter 0 the loop stops there after k+1 registrations and k sleeps, with one store of that attempt's certificate and the key, and that attempt's chain on disk |
| `Agent.Host.constructor` | dela/vm_image_scripts/csr-ca.py:42 | the retry counter starts at 0 over the given directory, with no calls made |
| `Agent.Host.Register` | dela/vm_image_scripts/csr-ca.py:73-105 | returns `Leaf(resp)`; on success the directory is the chain write of the old one, otherwise unchanged; one registration call with its arguments and result is recorded |
| `Agent.Host.Store` | dela/vm_image_scripts/csr-ca.py:147-156 | the directory becomes the leaf-pair write of the old one and one store call is recorded |
| `Agent.Host.Sleep` | dela/vm_image_scripts/csr-ca.py:70 | one sleep is recorded and nothing else changes |
| `Agent.Host.RegisterLoop` | dela/vm_image_scripts/csr-ca.py:60-70 | the loop stops at the first iteration that succeeds or whose incremented counter equals `retries`; the directory, counter and trace are then exactly `Run` of the old state |
| `Agent.Host.Bootstrap` | dela/vm_image_scripts/csr-ca.py:219-227 | registration runs iff the certificate and key file are not both present; when both exist nothing is attempted and the directory, counter and trace are unchanged; otherwise the retry loop runs with the given CSR and key |

## Left out

- The HTTP exchange (`requests` session, login POST, cookies, headers, `verify=False`; lines 75-82). Each attempt's outcome is an abstract `Response`.
- JSON decoding (line 86). The body is an optional map from field name to string, so every field value is a string. Under that abstraction a failed attempt changes no file. With other JSON values the source behaves differently, and the model does not capture it:
  - A `null` `signedCert` next to string CA fields: both chain files are written (lines 92-97) and `None` is returned (line 101). The loop then counts a failed attempt that changed files.
  - A `rootCaCert` or `intermediateCaCert` that is not a string: opening the file with `"wt"` (line 92 or 96) empties it before the write raises. The attempt returns `None` with that file emptied.
  - A `signedCert` that is a number or another non-string, non-null value: it is returned as a certificate. `Cert.store` then empties the certificate file (line 152) before the write raises, and nothing catches that.
- I/O errors on the writes. The model takes every write of a string to succeed. In the source, a failed write of the intermediate CA file after the root CA file was written is caught and leaves a partial chain. A failed write in `Cert.store` is not caught.
- The sleep at line 70: a negative `retry_interval` makes `time.sleep` raise, and nothing catches it. The model records a sleep and continues.
- The two POSTs (lines 81-82) carry no timeout and can block forever on a peer that does not answer. Every attempt in the model returns an answer.
- Key and CSR generation with OpenSSL (`Cert.create_key_and_csr`, lines 123-144). The CSR and key are opaque string parameters of `Bootstrap`.
- Configuration reading (lines 174-195), including the initial `retries = 5` (line 41) that the configured value replaces. Log file removal and handler setup (lines 198-216). The debug-level globals (lines 29-40). These are environment setup.
- The sleep duration `retry_interval`. Only the occurrence of a sleep is recorded.
- `Cert.exists_keystore` (lines 119-120) and the `Lock` (line 160), which nothing calls. `Cert.get_dir` and path joining: joining the script's directory with an absolute name yields that name, so files are keyed by their absolute paths.
- All log messages, including the retries-left condition (lines 103-104) and the `logger.setLevel` call at line 221 that consumes `Util.logging_level`.
- Non-finite `retries`: `getfloat` also accepts `nan`, `inf` and `-inf`, which have no counterpart among Dafny's reals. For each of them the test `retry_count == retries` at line 68 never holds, exactly as for a fractional value, so with every attempt failing the source loops forever; `Retry.EndsWhenAllFail` covers finite values only.
- Agent.Host.RegisterLoop: requires some iteration to end the loop (a success, or the incremented counter equalling `retries`). The source loops forever otherwise, and a Dafny method must terminate. `Retry.EndsWhenAllFail` states when that requirement fails with every attempt failing.
- Agent.Host.Bootstrap: carries the same requirement whenever the gate lets registration proceed.
- Running two agents against the same files at once is not modelled. The source takes no lock.
