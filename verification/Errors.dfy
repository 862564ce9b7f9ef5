/** Announce errors and the texts they are reported with. */
module Errors {
  import opened MachineInts
  import opened Decimals

  datatype AnnounceError =
    | InternalTrackerError
    | InvalidQueryStringKey
    | InvalidQueryStringValue
    | InvalidPeerId
    | InvalidInfoHash
    | InvalidPort
    | InvalidUploaded
    | InvalidDownloaded
    | InvalidLeft
    | InvalidCompact
    | UnsupportedEvent
    | InvalidNumwant
    | MissingInfoHash
    | MissingPeerId
    | MissingPort
    | MissingUploaded
    | MissingDownloaded
    | MissingLeft
    | AbnormalAccess
    | InvalidUserAgent
    | UserAgentTooLong
    | BlacklistedClient
    | NotAClient
    | InvalidPasskey
    | PasskeyNotFound
    | UserNotFound
    | DownloadPrivilegesRevoked
    | BlacklistedPort(port: u16)
    | InfoHashNotFound
    | TorrentNotFound
    | TorrentIsDeleted
    | TorrentIsPendingModeration
    | TorrentIsRejected
    | TorrentIsPostponed
    | TorrentUnknownModerationStatus
    | GroupNotFound
    | GroupNotEnabled(slug: string)
    | PeersPerTorrentPerUserLimit(limit: u16)
    | StoppedPeerDoesNotExist

  function Text(e: AnnounceError): string {
    match e
    case InternalTrackerError => "Internal tracker error."
    case InvalidQueryStringKey => "Invalid query string parameter."
    case InvalidQueryStringValue => "Invalid query string value."
    case InvalidPeerId => "Invalid 'peer_id'."
    case InvalidInfoHash => "Invalid 'info_hash'."
    case InvalidPort => "Invalid 'port' (must be greater than or equal to 0)."
    case InvalidUploaded => "Invalid 'uploaded' (must be greater than or equal to 0)."
    case InvalidDownloaded => "Invalid 'downloaded' (must be greater than or equal to 0)."
    case InvalidLeft => "Invalid 'left' (must be greater than or equal to 0)."
    case InvalidCompact => "Your client does not support compact announces."
    case UnsupportedEvent => "Unsupported 'event' type."
    case InvalidNumwant => "Invalid 'numwant' (must be greater than or equal to 0)."
    case MissingInfoHash => "Query parameter 'info_hash' is missing."
    case MissingPeerId => "Query parameter 'peer_id' is missing."
    case MissingPort => "Query parameter 'port' is missing."
    case MissingUploaded => "Query parameter 'uploaded' is missing."
    case MissingDownloaded => "Query parameter 'downloaded' is missing."
    case MissingLeft => "Query parameter 'left' is missing."
    case AbnormalAccess => "Abnormal access blocked."
    case InvalidUserAgent => "Invalid user agent."
    case UserAgentTooLong => "The user agent of this client is too long."
    case BlacklistedClient => "Client is not acceptable. Please check our blacklist."
    case NotAClient => "Browser, crawler or cheater is not allowed."
    case InvalidPasskey => "Invalid passkey."
    case PasskeyNotFound => "Passkey does not exist. Please re-download the .torrent file."
    case UserNotFound => "User does not exist. Please re-download the .torrent file."
    case DownloadPrivilegesRevoked => "Your downloading privileges have been disabled."
    case BlacklistedPort(port) => "Illegal port: " + Dec(port) + ". Port should be between 6881-64999."
    case InfoHashNotFound => "InfoHash not found."
    case TorrentNotFound => "Torrent not found."
    case TorrentIsDeleted => "Torrent has been deleted."
    case TorrentIsPendingModeration => "Torrent is pending moderation."
    case TorrentIsRejected => "Torrent has been rejected."
    case TorrentIsPostponed => "Torrent has been postponed."
    case TorrentUnknownModerationStatus => "Torrent not approved."
    case GroupNotFound => "Group not found."
    case GroupNotEnabled(slug) => "Your account is not enabled. (Current: " + slug + ")."
    case PeersPerTorrentPerUserLimit(limit) => "You already have " + Dec(limit) + " peers on this torrent. Ignoring."
    case StoppedPeerDoesNotExist => "Stopped peer doesn't exist."
  }

  /** Errors reported as a successful announce with a warning, so that clients do not back off or loop */
  predicate IsCriticalWarning(e: AnnounceError) {
    || e.StoppedPeerDoesNotExist?
    || e.TorrentIsPendingModeration?
    || e.TorrentIsPostponed?
    || e.TorrentIsRejected?
  }
}
